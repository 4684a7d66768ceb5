/** The printer as the agent runs it: text appended to one buffer, recursively and in loops. */
module CanonicalPrinter {
  import opened Wrappers
  import opened CanonicalJson

  /** `appendCanonicalJSON`: the buffer gains exactly the print, or an error is reported. */
  method AppendCanonical(output: string, value: Json) returns (r: Option<string>)
    ensures r == if Printable(value) then Some(output + Print(value)) else None
    decreases value, 1
  {
    match value
    case Null => r := Some(output + "null");
    case Bool(b) => r := Some(output + if b then "true" else "false");
    case Num(text) =>
      if !IntegerPattern(text) {
        return None;
      }
      var integer := IntValue(text);
      if integer < -MAX_SAFE_INTEGER || integer > MAX_SAFE_INTEGER {
        return None;
      }
      r := Some(output + FormatInt(integer));
    case Str(s) => r := Some(output + EncodeString(s));
    case Arr(items) =>
      r := AppendItems(output + "[", items);
      if r.Some? {
        assert output + "[" + PrintItems(items) + "]" == output + ("[" + PrintItems(items) + "]");
        r := Some(r.value + "]");
      }
    case Obj(members) =>
      r := AppendMembers(output + "{", members);
      if r.Some? {
        assert output + "{" + PrintMembers(members) + "}" == output + ("{" + PrintMembers(members) + "}");
        r := Some(r.value + "}");
      }
  }

  /** What the loop still has to append from index `i` on. */
  ghost function RemainingItems(items: seq<Json>, i: nat): string
    requires i <= |items| && PrintableItems(items[i..])
  {
    if i == |items| then "" else (if i == 0 then "" else ",") + PrintItems(items[i..])
  }

  lemma RemainingItemsStep(items: seq<Json>, i: nat)
    requires i < |items| && PrintableItems(items[i..])
    ensures items[i..][1..] == items[i + 1..]
    ensures RemainingItems(items, i) == (if i == 0 then "" else ",") + Print(items[i]) + RemainingItems(items, i + 1)
  {
    var tail := items[i..];
    assert tail[0] == items[i] && tail[1..] == items[i + 1..];
    Regroup("", if i == 0 then "" else ",", Print(items[i]), "", PrintItems(items[i + 1..]));
  }

  method AppendItems(output: string, items: seq<Json>) returns (r: Option<string>)
    ensures r == if PrintableItems(items) then Some(output + PrintItems(items)) else None
    decreases items, 0
  {
    var buffer := output;
    assert items[0..] == items;
    for index := 0 to |items|
      invariant PrintableItems(items[index..]) == PrintableItems(items)
      invariant PrintableItems(items) ==> buffer + RemainingItems(items, index) == output + PrintItems(items)
    {
      assert items[index..][0] == items[index] && items[index..][1..] == items[index + 1..];
      var separator := if index != 0 then "," else "";
      var appended := AppendCanonical(buffer + separator, items[index]);
      if appended.None? {
        return None;
      }
      if PrintableItems(items) {
        RemainingItemsStep(items, index);
        Regroup(buffer, separator, Print(items[index]), "", RemainingItems(items, index + 1));
      }
      buffer := appended.value;
    }
    assert items[|items|..] == [] && buffer + "" == buffer;
    r := Some(buffer);
  }

  ghost function RemainingMembers(ms: seq<Member>, i: nat): string
    requires i <= |ms| && PrintableMembers(ms[i..])
  {
    if i == |ms| then "" else (if i == 0 then "" else ",") + PrintMembers(ms[i..])
  }

  lemma RemainingMembersStep(ms: seq<Member>, i: nat)
    requires i < |ms| && PrintableMembers(ms[i..])
    ensures ms[i..][1..] == ms[i + 1..]
    ensures RemainingMembers(ms, i)
         == (if i == 0 then "" else ",") + PrintMember(ms[i]) + RemainingMembers(ms, i + 1)
  {
    var tail := ms[i..];
    assert tail[0] == ms[i] && tail[1..] == ms[i + 1..];
    Regroup("", if i == 0 then "" else ",", PrintMember(ms[i]), "", PrintMembers(ms[i + 1..]));
  }

  lemma Regroup(buffer: string, separator: string, first: string, text: string, rest: string)
    ensures buffer + separator + first + rest == buffer + (separator + first + rest)
    ensures buffer + separator + first + ":" + text == buffer + separator + (first + ":" + text)
    ensures separator + (first + "," + rest) == separator + first + ("," + rest)
    ensures separator + first + "" == separator + first
  {
  }

  method AppendMembers(output: string, ms: seq<Member>) returns (r: Option<string>)
    ensures r == if PrintableMembers(ms) then Some(output + PrintMembers(ms)) else None
    decreases ms, 0
  {
    var buffer := output;
    assert ms[0..] == ms;
    for index := 0 to |ms|
      invariant PrintableMembers(ms[index..]) == PrintableMembers(ms)
      invariant PrintableMembers(ms) ==> buffer + RemainingMembers(ms, index) == output + PrintMembers(ms)
    {
      assert ms[index..][0] == ms[index] && ms[index..][1..] == ms[index + 1..];
      var separator := if index != 0 then "," else "";
      var before := buffer + separator + EncodeString(ms[index].key) + ":";
      var appended := AppendCanonical(before, ms[index].value);
      if appended.None? {
        return None;
      }
      if PrintableMembers(ms) {
        RemainingMembersStep(ms, index);
        Regroup(buffer, separator, EncodeString(ms[index].key), Print(ms[index].value), "");
        Regroup(buffer, separator, PrintMember(ms[index]), "", RemainingMembers(ms, index + 1));
      }
      buffer := appended.value;
    }
    assert ms[|ms|..] == [] && buffer + "" == buffer;
    r := Some(buffer);
  }

  /** `canonicalJSON` */
  method CanonicalText(content: string) returns (r: Option<string>)
    ensures r == Canonical(content)
  {
    var value := ParseDocument(content);
    if value.None? {
      return None;
    }
    r := AppendCanonical("", value.value);
    assert Printable(value.value) ==> "" + Print(value.value) == Print(value.value);
  }
}
