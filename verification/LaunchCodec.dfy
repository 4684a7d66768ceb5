/** What an accepted launch message binds: its plan slice and the digest preimages. */
module LaunchCodec {
  import opened Wrappers
  import opened CanonicalJson
  import opened CanonicalStrings
  import opened CanonicalRoundTrip

  // ---------------------------------------------------------------------------
  // Domain framing

  predicate NulFree(s: string) {
    forall i | 0 <= i < |s| :: s[i] as int != 0
  }

  const NUL: string := [0 as char]

  /** The preimage of `domainDigest` and `canonical_digest`. */
  function Frame(domain: string, content: string): string {
    "edagym" + NUL + domain + NUL + content
  }

  /** For NUL-free domains a preimage names one domain and one content. */
  lemma FrameInjective(d: string, x: string, e: string, y: string)
    requires NulFree(d) && NulFree(e) && Frame(d, x) == Frame(e, y)
    ensures d == e && x == y
  {
    var f, n := Frame(d, x), 7;
    assert forall i | 0 <= i < |d| :: f[n + i] == d[i];
    assert forall i | 0 <= i < |e| :: f[n + i] == e[i];
    assert f[n + |d|] as int == 0 && f[n + |e|] as int == 0;
    assert d == e;
    assert x == f[n + |d| + 1..] && y == f[n + |d| + 1..];
  }

  /** Without the restriction it is not injective. */
  lemma FrameNeedsNulFreeDomains()
    ensures Frame("a" + NUL + "b", "c") == Frame("a", "b" + NUL + "c")
  {
  }

  // ---------------------------------------------------------------------------
  // Decoding a launch message

  /** Go matches JSON keys to struct fields up to simple case folding. */
  function FoldChar(c: char): char {
    if 'A' <= c <= 'Z' then (c as int + 32) as char
    else if c == '\U{017F}' then 's'
    else if c == '\U{212A}' then 'k'
    else c
  }

  predicate FoldsTo(key: string, name: string) {
    |key| == |name| && forall i | 0 <= i < |key| :: FoldChar(key[i]) == name[i]
  }

  /** The members of a message that is one object, with their raw slices. */
  function ObjectFields(content: string): Option<seq<Field>> {
    var t := SkipSpace(content);
    if t == [] || t[0] != '{' then None
    else
      var body := SkipSpace(t[1..]);
      if body != [] && body[0] == '}' then Some([])
      else
        var (fields, rest) :- ParseFields(body, MAX_DEPTH - 1);
        Some(fields)
  }

  /** A `json.RawMessage` field: the slice of the last member that names it. */
  function RawMember(fields: seq<Field>, name: string): Option<string> {
    if fields == [] then None
    else
      var last := fields[|fields| - 1];
      if FoldsTo(last.key, name) then Some(last.raw) else RawMember(fields[..|fields| - 1], name)
  }

  /** A `string` field: the last string member that names it; `null` leaves it alone. */
  function TextMember(fields: seq<Field>, name: string): string {
    if fields == [] then ""
    else
      var last := fields[|fields| - 1];
      if FoldsTo(last.key, name) && last.value.Str? then last.value.s
      else TextMember(fields[..|fields| - 1], name)
  }

  const PLAN_DOMAIN := "invocation-plan-v1"
  const REQUEST_DOMAIN := "vm-guest-protocol-v1"

  datatype Launch = Launch(plan: string, invocationDigest: string, requestDigest: string)

  /** `decodeLaunch`, as far as identities are concerned; `digest` stands for SHA-256.  The typed decoding of
      the other fields can only refuse more messages. */
  function DecodeLaunch(content: string, digest: string -> string): Option<Launch> {
    if !Accepted(content) then None
    else
      var fields :- ObjectFields(content);
      var plan :- RawMember(fields, "plan");
      var claimed := TextMember(fields, "invocation_digest");
      if digest(Frame(PLAN_DOMAIN, plan)) != claimed then None
      else Some(Launch(plan, claimed, digest(Frame(REQUEST_DOMAIN, content))))
  }

  lemma {:induction false} ReadableDeeper(v: Json, depth: nat)
    requires Readable(v, depth)
    ensures Readable(v, depth + 1)
    decreases v, 1
  {
    match v
    case Arr(items) => ReadableItemsDeeper(items, depth - 1);
    case Obj(members) => ReadableMembersDeeper(members, depth - 1);
    case _ =>
  }

  lemma {:induction false} ReadableItemsDeeper(items: seq<Json>, depth: nat)
    requires ReadableItems(items, depth)
    ensures ReadableItems(items, depth + 1)
    decreases items, 0
  {
    if items != [] {
      ReadableDeeper(items[0], depth);
      ReadableItemsDeeper(items[1..], depth);
    }
  }

  lemma {:induction false} ReadableMembersDeeper(ms: seq<Member>, depth: nat)
    requires ReadableMembers(ms, depth)
    ensures ReadableMembers(ms, depth + 1)
    decreases ms, 0
  {
    if ms != [] {
      ReadableDeeper(ms[0].value, depth);
      ReadableMembersDeeper(ms[1..], depth);
    }
  }

  /** Each raw slice in canonical text is the canonical print of its own value. */
  lemma {:induction false} SliceIsCanonical(ms: seq<Member>, depth: nat, i: nat)
    requires WellFormedMembers(ms) && PrintableMembers(ms) && ReadableMembers(ms, depth) && i < |ms|
    ensures WellFormed(ms[i].value) && Printable(ms[i].value) && Readable(ms[i].value, depth)
    ensures FieldsOf(ms)[i] == Field(ms[i].key, ms[i].value, Print(ms[i].value))
  {
    if i > 0 {
      SliceIsCanonical(ms[1..], depth, i - 1);
    }
  }

  lemma {:induction false} RawMemberFound(fields: seq<Field>, name: string) returns (i: nat)
    requires RawMember(fields, name).Some?
    ensures i < |fields| && FoldsTo(fields[i].key, name) && RawMember(fields, name) == Some(fields[i].raw)
    ensures forall j | i < j < |fields| :: !FoldsTo(fields[j].key, name)
  {
    var n := |fields| - 1;
    if FoldsTo(fields[n].key, name) {
      i := n;
    } else {
      i := RawMemberFound(fields[..n], name);
    }
  }

  /** Only an object's print begins with a brace. */
  lemma BraceIsObject(v: Json)
    requires Printable(v) && Print(v) != [] && Print(v)[0] == '{'
    ensures v.Obj?
  {
    match v
    case Str(s) => EncodedLiteral(s);
    case Num(text) => FormatIntValue(text);
    case _ =>
  }

  /** The fields read from the print of an object are its members in order. */
  lemma PrintedFields(members: seq<Member>, body: string)
    requires WellFormedMembers(members) && PrintableMembers(members) && ReadableMembers(members, MAX_DEPTH - 1)
    requires body == PrintMembers(members) + "}"
    ensures ObjectFields("{" + body) == Some(FieldsOf(members))
  {
    assert ("{" + body)[1..] == body;
    if members == [] {
      assert body[0] == '}';
    } else {
      PrintMembersStarts(members);
      assert body[0] == '\"';
      MembersRead(members, [], MAX_DEPTH - 1);
      assert PrintMembers(members) + "}" + [] == body;
    }
  }

  /** The fields read from an accepted object are its members in order. */
  lemma AcceptedFields(content: string)
    requires Accepted(content) && ObjectFields(content).Some?
    ensures var v := ParseDocument(content).value;
            v.Obj? && WellFormed(v) && Printable(v) && Readable(v, MAX_DEPTH) && content == Print(v)
            && ObjectFields(content) == Some(FieldsOf(v.members))
  {
    AcceptedMessages(content);
    var v := ParseDocument(content).value;
    PrintStarts(v);
    assert SkipSpace(content) == content;
    BraceIsObject(v);
    var body := PrintMembers(v.members) + "}";
    assert content == "{" + body;
    PrintedFields(v.members, body);
  }

  /** In every accepted launch the plan slice is the canonical print of the plan member's value and would itself
      be accepted, so the digest over raw bytes is the framed digest of the re-encoded plan; the request digest
      likewise is that of the re-encoded message. */
  lemma PlanSliceIsCanonical(content: string, digest: string -> string) returns (i: nat)
    requires DecodeLaunch(content, digest).Some?
    ensures var l := DecodeLaunch(content, digest).value;
            var v := ParseDocument(content).value;
            && v.Obj? && i < |v.members| && FoldsTo(v.members[i].key, "plan")
            && (forall j | i < j < |v.members| :: !FoldsTo(v.members[j].key, "plan"))
            && Printable(v) && Printable(v.members[i].value)
            && l.plan == Print(v.members[i].value) && Accepted(l.plan)
            && ParseDocument(l.plan) == Some(v.members[i].value)
            && l.invocationDigest == digest(Frame(PLAN_DOMAIN, Print(v.members[i].value)))
            && l.requestDigest == digest(Frame(REQUEST_DOMAIN, Print(v)))
  {
    AcceptedFields(content);
    var v := ParseDocument(content).value;
    var fields := FieldsOf(v.members);
    i := RawMemberFound(fields, "plan");
    forall j | 0 <= j < |fields| ensures fields[j].key == v.members[j].key {
      SliceIsCanonical(v.members, MAX_DEPTH - 1, j);
    }
    SliceIsCanonical(v.members, MAX_DEPTH - 1, i);
    ReadableDeeper(v.members[i].value, MAX_DEPTH - 1);
    RoundTrip(v.members[i].value);
  }

  lemma {:induction false} LastNamed(fields: seq<Field>, name: string, i: nat)
    requires i < |fields| && FoldsTo(fields[i].key, name)
    ensures (forall j | i < j < |fields| :: !FoldsTo(fields[j].key, name)) ==> RawMember(fields, name) == Some(fields[i].raw)
    ensures fields[i].value.Str? && (forall j | i < j < |fields| :: FoldsTo(fields[j].key, name) ==> !fields[j].value.Str?) ==>
              TextMember(fields, name) == fields[i].value.s
  {
    if i < |fields| - 1 {
      LastNamed(fields[..|fields| - 1], name, i);
    }
  }

  /** Every launch that a host prints canonically, with the framed digest of its own plan, is decoded: to the print of
      the plan, that digest and the digest of the whole message. */
  lemma LaunchIsDecoded(members: seq<Member>, digest: string -> string, i: nat, k: nat)
    requires WellFormed(Obj(members)) && Printable(Obj(members)) && Readable(Obj(members), MAX_DEPTH)
    requires i < |members| && FoldsTo(members[i].key, "plan")
    requires forall j | i < j < |members| :: !FoldsTo(members[j].key, "plan")
    requires k < |members| && FoldsTo(members[k].key, "invocation_digest") && members[k].value.Str?
    requires forall j | k < j < |members| :: !FoldsTo(members[j].key, "invocation_digest")
    ensures Printable(members[i].value)
    ensures var plan := Print(members[i].value);
            var claimed := members[k].value.s;
            DecodeLaunch(Print(Obj(members)), digest) ==
            if claimed == digest(Frame(PLAN_DOMAIN, plan))
            then Some(Launch(plan, claimed, digest(Frame(REQUEST_DOMAIN, Print(Obj(members)))))) else None
  {
    PrintedObject(members);
    SlicesAreCanonical(members);
    LastNamed(FieldsOf(members), "plan", i);
    LastNamed(FieldsOf(members), "invocation_digest", k);
  }

  lemma PrintedObject(members: seq<Member>)
    requires WellFormed(Obj(members)) && Printable(Obj(members)) && Readable(Obj(members), MAX_DEPTH)
    ensures Accepted(Print(Obj(members))) && ObjectFields(Print(Obj(members))) == Some(FieldsOf(members))
  {
    RoundTrip(Obj(members));
    var body := PrintMembers(members) + "}";
    assert Print(Obj(members)) == "{" + body;
    PrintedFields(members, body);
  }

  lemma SlicesAreCanonical(members: seq<Member>)
    requires WellFormed(Obj(members)) && Printable(Obj(members)) && Readable(Obj(members), MAX_DEPTH)
    ensures |FieldsOf(members)| == |members|
    ensures forall j | 0 <= j < |members| ::
              Printable(members[j].value) && FieldsOf(members)[j] == Field(members[j].key, members[j].value, Print(members[j].value))
  {
    forall j | 0 <= j < |members|
      ensures Printable(members[j].value) && FieldsOf(members)[j] == Field(members[j].key, members[j].value, Print(members[j].value)) {
      SliceIsCanonical(members, MAX_DEPTH - 1, j);
    }
  }
}
