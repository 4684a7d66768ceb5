/** Publishing a private catalog: stage, rename, and verify the exact tree. */
module CatalogPublication {
  import opened Wrappers
  import opened Paths
  import opened MemberPaths
  import opened CatalogTree
  import opened TreeVerification
  import opened CatalogRoles

  const RECEIPT_NAME := ".edagym-private-catalog.json"

  function RootParts(role: Role): Parts {
    match role
    case PublicFile => ["public"]
    case ParticipantFile => ["participant"]
    case VerifierFile => ["verifier"]
    case TaskSpecDocument => ["author", "task-specs"]
    case TaskInstanceDocument => ["author", "task-instances"]
    case AuthorEvidence => ["author"]
    case FlowTaskPack => ["author", "flow-packs"]
  }

  /** `_materialized_path` */
  function MaterializedPath(e: Export): string {
    Join(RootParts(e.role)) + "/" + e.relativePath
  }

  function RelativeParts(exports: seq<Export>): seq<Parts> {
    seq(|exports|, i requires 0 <= i < |exports| => PathParts(exports[i].relativePath))
  }

  function MaterializedParts(exports: seq<Export>): seq<Parts> {
    seq(|exports|, i requires 0 <= i < |exports| => PathParts(MaterializedPath(exports[i])))
  }

  /** The path clauses of a receipt, on member paths that the descriptor has normalized. */
  predicate ValidPaths(exports: seq<Export>) {
    && exports != []
    && (forall i | 0 <= i < |exports| ::
          ValidateRelativePath(exports[i].relativePath) == Some(exports[i].relativePath)
          && exports[i].relativePath != RECEIPT_NAME)
    && PrefixFree(RelativeParts(exports))
    && PrefixFree(MaterializedParts(exports))
  }

  /** Every clause of a receipt: its paths, the manifest it binds, and the roles of its members. */
  predicate ValidReceipt(a: Attestation, exports: seq<Export>, m: Manifests) {
    && ValidPaths(exports)
    && ValidAttestation(a) && (forall i | 0 <= i < |exports| :: WellBound(exports[i]))
    && m.members(exports) == a.memberManifest
    && RolesCovered(a, exports, m)
  }

  function MembersOf(exports: seq<Export>): seq<Member> {
    seq(|exports|, i requires 0 <= i < |exports| => Member(PathParts(MaterializedPath(exports[i])), exports[i].content))
  }

  /** Everything `_write_atomic` writes, in order: the members, then the receipt. */
  function Writes(exports: seq<Export>, receipt: Content): seq<Member> {
    MembersOf(exports) + [Member([RECEIPT_NAME], receipt)]
  }

  lemma RootPartsNormal(role: Role)
    ensures RootParts(role) != [] && NormalParts(RootParts(role)) && RootParts(role)[0] != RECEIPT_NAME
  {
    assert "public"[0] == 'p' && "participant"[0] == 'p' && "verifier"[0] == 'v' && "author"[0] == 'a' && RECEIPT_NAME[0] == '.';
  }

  lemma ReceiptNameNormal()
    ensures NormalParts([RECEIPT_NAME])
  {
    assert |RECEIPT_NAME| == 28;
    assert SlashFree(RECEIPT_NAME);
  }

  lemma {:induction false} KeptConcat(a: seq<string>, b: seq<string>)
    ensures KeptParts(a + b) == KeptParts(a) + KeptParts(b)
  {
    if a == [] {
      assert a + b == b;
    } else {
      assert (a + b)[1..] == a[1..] + b;
      KeptConcat(a[1..], b);
    }
  }

  /** A member lands below the root of its role, at its own path. */
  lemma MaterializedBelowRoot(e: Export)
    ensures PathParts(MaterializedPath(e)) == RootParts(e.role) + PathParts(e.relativePath)
  {
    var root := RootParts(e.role);
    RootPartsNormal(e.role);
    JoinSplit(e.relativePath);
    JoinConcat(root, Split(e.relativePath));
    SplitJoin(root + Split(e.relativePath));
    KeptConcat(root, Split(e.relativePath));
    KeptNormal(root);
  }

  /** The text of a member's path is the joined form of its parts, unless the relative path is a lone dot. */
  lemma MaterializedText(e: Export)
    requires ValidateRelativePath(e.relativePath) == Some(e.relativePath)
    ensures var parts := PathParts(MaterializedPath(e));
            && parts != [] && NormalParts(parts) && parts[0] != RECEIPT_NAME
            && (MaterializedPath(e) == Join(parts) <==> e.relativePath != ".")
            && (e.relativePath == "." ==> PathParts(e.relativePath) == [] && forall q | q != [] && NormalParts(q) :: MaterializedPath(e) != Join(q))
  {
    var root := RootParts(e.role);
    var rest := PathParts(e.relativePath);
    RootPartsNormal(e.role);
    MaterializedBelowRoot(e);
    AcceptedPathIsNormal(e.relativePath);
    if e.relativePath == "." {
      SplitOne(".");
      JoinConcat(root, ["."]);
      SplitJoin(root + ["."]);
      forall q | q != [] && NormalParts(q) ensures MaterializedPath(e) != Join(q) {
        SplitJoin(q);
        assert (root + ["."])[|root|] == ".";
      }
    } else {
      JoinConcat(root, rest);
    }
  }

  /** For every receipt with valid paths the writes cannot collide, whatever order the members come in. */
  lemma ValidWritesAreSeparate(exports: seq<Export>, receipt: Content)
    requires ValidPaths(exports)
    ensures Separate(Writes(exports, receipt))
  {
    var members := MembersOf(exports);
    var last := Member([RECEIPT_NAME], receipt);
    forall i | 0 <= i < |members| ensures members[i].path != [] && members[i].path[0] != RECEIPT_NAME {
      MaterializedText(exports[i]);
    }
    assert PathsOf(members) == MaterializedParts(exports);
    assert !Related(members, last.path);
    SeparateOneMore(members, last);
  }

  // ---------------------------------------------------------------------------
  // What was written against what the receipt lists
  // ---------------------------------------------------------------------------

  /** The files the receipt stands for: its members and itself. */
  function ListedFiles(exports: seq<Export>, receipt: Content): seq<Listed> {
    seq(|exports|, i requires 0 <= i < |exports| => Listed(MaterializedPath(exports[i]), exports[i].content))
    + [Listed(RECEIPT_NAME, receipt)]
  }

  lemma ReceiptPath()
    ensures PathParts(RECEIPT_NAME) == [RECEIPT_NAME] && Join([RECEIPT_NAME]) == RECEIPT_NAME
  {
    ReceiptNameNormal();
    PartsOfJoin([RECEIPT_NAME]);
  }

  predicate NoLoneDot(exports: seq<Export>) {
    forall i | 0 <= i < |exports| :: exports[i].relativePath != "."
  }

  lemma WrittenAsListed(exports: seq<Export>, receipt: Content)
    requires ValidPaths(exports) && NoLoneDot(exports)
    ensures Spelled(Writes(exports, receipt), ListedFiles(exports, receipt))
  {
    var w, listed := Writes(exports, receipt), ListedFiles(exports, receipt);
    forall i | 0 <= i < |w|
      ensures w[i].path != [] && w[i].content == listed[i].content
      ensures PathParts(listed[i].path) == w[i].path && Join(w[i].path) == listed[i].path
    {
      if i < |exports| {
        MaterializedText(exports[i]);
      } else {
        ReceiptPath();
      }
    }
  }

  lemma DotIsNotWritten(exports: seq<Export>, receipt: Content, i: nat)
    requires ValidPaths(exports) && i < |exports| && exports[i].relativePath == "."
    ensures var w := Writes(exports, receipt);
            forall k | 0 <= k < |w| :: w[k].path != [] && MaterializedPath(exports[i]) != Join(w[k].path)
  {
    var w := Writes(exports, receipt);
    MaterializedText(exports[i]);
    forall k | 0 <= k < |w| ensures w[k].path != [] && NormalParts(w[k].path) {
      if k < |exports| {
        MaterializedText(exports[k]);
      } else {
        ReceiptNameNormal();
      }
    }
  }

  /** The path clauses alone would leave one gap: a tree written from paths that pass them verifies if and only if none
      is a lone dot. */
  lemma PathClausesAlone(t: Tree, exports: seq<Export>, receipt: Content, digest: Content -> string)
    requires ValidPaths(exports) && Holds(t, Writes(exports, receipt))
    ensures Exact(t, ListedFiles(exports, receipt), digest) <==> NoLoneDot(exports)
  {
    var w, listed := Writes(exports, receipt), ListedFiles(exports, receipt);
    if NoLoneDot(exports) {
      WrittenAsListed(exports, receipt);
      SpelledVerifies(t, w, listed, digest);
    } else {
      var i :| 0 <= i < |exports| && exports[i].relativePath == ".";
      DotIsNotWritten(exports, receipt, i);
      MisspelledFails(t, w, listed, digest, i);
    }
  }

  /** A lone dot is above every other path, so it can only be the one member of its receipt. */
  lemma DotStandsAlone(exports: seq<Export>, i: nat)
    requires ValidPaths(exports) && i < |exports| && exports[i].relativePath == "."
    ensures |exports| == 1
  {
    MaterializedText(exports[i]);
    var paths := RelativeParts(exports);
    forall j | 0 <= j < |paths| ensures paths[j] == [] && j == i {
      assert paths[i] <= paths[j];
    }
    assert paths[0] == [] && paths[|paths| - 1] == [];
  }

  /** The roles close that gap: a valid receipt has at least two members, so none of its paths is a lone dot. */
  lemma ValidReceiptHasNoDot(a: Attestation, exports: seq<Export>, m: Manifests)
    requires ValidReceipt(a, exports, m)
    ensures NoLoneDot(exports)
  {
    CoveredNeedsTwo(a, exports, m);
    forall i | 0 <= i < |exports| ensures exports[i].relativePath != "." {
      if exports[i].relativePath == "." {
        DotStandsAlone(exports, i);
      }
    }
  }

  /** Every tree written from a valid receipt passes the exact-tree verification: its files are the members and the
      receipt, its directories are those above them, and the contents are the members' bytes. */
  lemma WrittenTreeVerifies(t: Tree, a: Attestation, exports: seq<Export>, m: Manifests, receipt: Content, digest: Content -> string)
    requires ValidReceipt(a, exports, m) && Holds(t, Writes(exports, receipt))
    ensures Exact(t, ListedFiles(exports, receipt), digest)
  {
    ValidReceiptHasNoDot(a, exports, m);
    PathClausesAlone(t, exports, receipt, digest);
  }

  // ---------------------------------------------------------------------------
  // Who can see what
  // ---------------------------------------------------------------------------

  /** The file at `q` is a member of one of these roles, kept at its own path below `root`. */
  ghost predicate MemberAt(exports: seq<Export>, roles: set<Role>, root: Parts, q: Parts, content: Content) {
    exists i :: 0 <= i < |exports| && exports[i].role in roles && q == root + PathParts(exports[i].relativePath) && content == exports[i].content
  }

  /** A file below one of the three audience directories is a member for that audience, one below `author` is of an
      author role, and there is no other but the receipt. */
  ghost predicate InItsPlace(exports: seq<Export>, q: Parts, content: Content) {
    && q != []
    && (q[0] == "public" ==> MemberAt(exports, {PublicFile}, ["public"], q, content))
    && (q[0] == "participant" ==> MemberAt(exports, {ParticipantFile}, ["participant"], q, content))
    && (q[0] == "verifier" ==> MemberAt(exports, {VerifierFile}, ["verifier"], q, content))
    && (q[0] == "author" ==>
          || MemberAt(exports, {TaskSpecDocument}, ["author", "task-specs"], q, content)
          || MemberAt(exports, {TaskInstanceDocument}, ["author", "task-instances"], q, content)
          || MemberAt(exports, {FlowTaskPack}, ["author", "flow-packs"], q, content)
          || MemberAt(exports, {AuthorEvidence}, ["author"], q, content))
    && (q[0] in {"public", "participant", "verifier", "author"} || q == [RECEIPT_NAME])
  }

  ghost predicate ByAudience(t: Tree, exports: seq<Export>) {
    forall q: Parts | KindAt(t, q).IsFile? :: InItsPlace(exports, q, KindAt(t, q).content)
  }

  lemma MemberInItsPlace(exports: seq<Export>, i: nat, q: Parts)
    requires i < |exports| && q == RootParts(exports[i].role) + PathParts(exports[i].relativePath)
    ensures InItsPlace(exports, q, exports[i].content)
  {
    RootNamesDiffer();
    var e := exports[i];
    assert q[0] == RootParts(e.role)[0];
    assert MemberAt(exports, {e.role}, RootParts(e.role), q, e.content);
    match e.role
    case PublicFile => assert q[0] == "public";
    case ParticipantFile => assert q[0] == "participant";
    case VerifierFile => assert q[0] == "verifier";
    case _ => assert q[0] == "author";
  }

  /** A written catalog sorts its files by audience, so nothing of the verifier's or the author's lies below `public` or
      `participant`. */
  lemma WrittenByAudience(t: Tree, exports: seq<Export>, receipt: Content)
    requires ValidPaths(exports) && Holds(t, Writes(exports, receipt))
    ensures ByAudience(t, exports)
  {
    var w := Writes(exports, receipt);
    forall q: Parts | KindAt(t, q).IsFile? ensures InItsPlace(exports, q, KindAt(t, q).content) {
      var i :| 0 <= i < |w| && w[i].path == q;
      assert KindAt(t, w[i].path) == IsFile(w[i].content);
      if i < |exports| {
        MaterializedBelowRoot(exports[i]);
        MemberInItsPlace(exports, i, q);
      } else {
        RootNamesDiffer();
        assert q == [RECEIPT_NAME];
      }
    }
  }

  lemma RootNamesDiffer()
    ensures "public" != "participant" && "public" != "verifier" && "public" != "author" && "participant" != "verifier"
    ensures "participant" != "author" && "verifier" != "author"
    ensures RECEIPT_NAME !in {"public", "participant", "verifier", "author"}
  {
    assert |"public"| == 6 && |"participant"| == 11 && |"verifier"| == 8 && |"author"| == 6 && |RECEIPT_NAME| == 28;
    assert "public"[0] != "author"[0];
  }

  // ---------------------------------------------------------------------------
  // Publication
  // ---------------------------------------------------------------------------

  /** The directory that receives the catalog.  `history` records its entries after every change. */
  class ParentDirectory {
    var entries: map<string, Tree>
    ghost var history: seq<map<string, Tree>>

    constructor (entries: map<string, Tree>)
      ensures this.entries == entries && history == []
    {
      this.entries := entries;
      history := [];
    }

    method Put(name: string, t: Tree)
      modifies this
      ensures entries == old(entries)[name := t] && history == old(history) + [entries]
    {
      entries := entries[name := t];
      history := history + [entries];
    }

    /** `renameat2` without replacement. */
    method Rename(name: string, target: string)
      requires name in entries && target !in entries
      modifies this
      ensures entries == (old(entries) - {name})[target := old(entries)[name]] && history == old(history) + [entries]
    {
      entries := (entries - {name})[target := entries[name]];
      history := history + [entries];
    }

    method Remove(name: string)
      modifies this
      ensures entries == old(entries) - {name} && history == old(history) + [entries]
    {
      entries := entries - {name};
      history := history + [entries];
    }
  }

  /** What may go wrong: a write that fails and leaves any debris behind, somebody else creating the destination
      just before the rename, and failures of the rename or of the final sync. */
  datatype Faults = Faults(
    failingWrite: Option<nat>, debris: Tree, intruder: Option<Tree>, renameFails: bool, syncFails: bool, cleanup: Cleanup)

  /** Whether the staging tree is removed after a failure, or left in some state because removing it failed too or
      because the failure was an interrupt that no handler caught. */
  datatype Cleanup = Removed | Abandoned(left: Tree)

  /** The destination is absent, complete, or somebody else's. */
  ghost predicate AllOrNothing(entries: map<string, Tree>, destination: string, complete: Option<Tree>, intruder: Option<Tree>) {
    destination in entries ==> complete == Some(entries[destination]) || intruder == Some(entries[destination])
  }

  /** Fills the staging directory; `false` when a write fails. */
  method Stage(parent: ParentDirectory, staging: string, writes: seq<Member>, faults: Faults) returns (ok: bool)
    requires staging in parent.entries && parent.entries[staging] == EMPTY
    modifies parent
    ensures staging in parent.entries && parent.entries - {staging} == old(parent.entries) - {staging}
    ensures ok <==> WriteAll(EMPTY, writes).Some? && (faults.failingWrite.Some? ==> faults.failingWrite.value >= |writes|)
    ensures ok ==> parent.entries == old(parent.entries)[staging := WriteAll(EMPTY, writes).value]
    ensures old(parent.history) <= parent.history
    ensures forall k | |old(parent.history)| <= k < |parent.history| ::
              parent.history[k] - {staging} == old(parent.entries) - {staging}
  {
    var i := 0;
    while i < |writes|
      invariant i <= |writes| && staging in parent.entries
      invariant faults.failingWrite.Some? ==> faults.failingWrite.value >= i
      invariant WriteAll(EMPTY, writes[..i]) == Some(parent.entries[staging])
      invariant parent.entries - {staging} == old(parent.entries) - {staging}
      invariant old(parent.history) <= parent.history
      invariant forall k | |old(parent.history)| <= k < |parent.history| ::
                  parent.history[k] - {staging} == old(parent.entries) - {staging}
    {
      WriteAllStops(writes, i);
      var next := Write(parent.entries[staging], writes[i].path, writes[i].content);
      if next.None? || faults.failingWrite == Some(i) {
        parent.Put(staging, faults.debris);
        return false;
      }
      parent.Put(staging, next.value);
      i := i + 1;
    }
    assert writes[..i] == writes;
    SameElsewhere(old(parent.entries), parent.entries, staging);
    ok := true;
  }

  lemma SameElsewhere(before: map<string, Tree>, after: map<string, Tree>, name: string)
    requires name in after && after - {name} == before - {name}
    ensures after == before[name := after[name]]
  {
    forall n | n in before && n != name ensures n in after && after[n] == before[n] {
      assert n in before - {name} && (before - {name})[n] == before[n];
    }
    forall n | n in after && n != name ensures n in before {
      assert n in after - {name};
    }
  }

  /** `_write_atomic`.  However it ends, nothing but the destination and the staging entry has changed, the staging entry
      is gone unless its removal failed or was never reached, and at every moment the destination was absent, the
      complete tree, or what somebody else put there. */
  method WriteAtomic(
    parent: ParentDirectory, destination: string, staging: string, writes: seq<Member>, faults: Faults)
    returns (ok: bool)
    requires staging != destination && staging !in parent.entries
    modifies parent
    ensures old(parent.history) <= parent.history
    ensures destination !in old(parent.entries) ==>
              forall k | |old(parent.history)| <= k < |parent.history| ::
                AllOrNothing(parent.history[k], destination, WriteAll(EMPTY, writes), faults.intruder)
    ensures destination in old(parent.entries) ==> !ok && parent.entries == old(parent.entries)
    ensures parent.entries - {destination, staging} == old(parent.entries) - {destination}
    ensures staging in parent.entries ==> !ok && faults.cleanup.Abandoned?
    ensures ok ==> WriteAll(EMPTY, writes).Some? && parent.entries == old(parent.entries)[destination := WriteAll(EMPTY, writes).value]
    ensures ok <==> && destination !in old(parent.entries) && WriteAll(EMPTY, writes).Some?
                    && (faults.failingWrite.Some? ==> faults.failingWrite.value >= |writes|)
                    && faults.intruder.None? && !faults.renameFails && !faults.syncFails
  {
    if destination in parent.entries {
      return false;
    }
    parent.Put(staging, EMPTY);
    var staged := Stage(parent, staging, writes, faults);
    forall k | |old(parent.history)| <= k < |parent.history| ensures destination !in parent.history[k] {
      if k > |old(parent.history)| {
        assert destination in parent.history[k] <==> destination in parent.history[k] - {staging};
      }
    }
    OnlyStaging(old(parent.entries), parent.entries, staging);
    if !staged {
      CleanUp(parent, staging, faults);
      OnlyStaging(old(parent.entries), parent.entries, staging);
      return false;
    }
    if faults.intruder.Some? {
      parent.Put(destination, faults.intruder.value);
    }
    OnlyStaging(parent.entries - {staging}, parent.entries, staging);
    if destination in parent.entries || faults.renameFails {
      CleanUp(parent, staging, faults);
      return false;
    }
    parent.Rename(staging, destination);
    ok := !faults.syncFails;
  }

  /** Two directories that agree away from the staging entry, which the first does not have. */
  lemma OnlyStaging(before: map<string, Tree>, after: map<string, Tree>, staging: string)
    requires staging !in before && after - {staging} == before
    ensures forall n | n != staging :: n in after <==> n in before
    ensures forall n | n in before :: after[n] == before[n]
    ensures forall d | d != staging :: after - {d, staging} == before - {d}
  {
    forall n | n != staging ensures n in after <==> n in before {
      assert n in after <==> n in after - {staging};
    }
    forall n | n in before ensures after[n] == before[n] {
      assert (after - {staging})[n] == after[n];
    }
    forall d | d != staging ensures after - {d, staging} == before - {d} {
    }
  }

  method CleanUp(parent: ParentDirectory, staging: string, faults: Faults)
    modifies parent
    ensures parent.history == old(parent.history) + [parent.entries]
    ensures parent.entries == match faults.cleanup
                              case Removed => old(parent.entries) - {staging}
                              case Abandoned(left) => old(parent.entries)[staging := left]
  {
    match faults.cleanup {
      case Removed => parent.Remove(staging);
      case Abandoned(left) => parent.Put(staging, left);
    }
  }

  lemma {:induction false} WriteAllStops(writes: seq<Member>, i: nat)
    requires i < |writes|
    ensures WriteAll(EMPTY, writes[..i + 1]) ==
            match WriteAll(EMPTY, writes[..i]) case Some(t) => Write(t, writes[i].path, writes[i].content) case None => None
    ensures WriteAll(EMPTY, writes[..i + 1]).None? ==> WriteAll(EMPTY, writes).None?
    decreases |writes|
  {
    var next := writes[..i + 1];
    assert next[..|next| - 1] == writes[..i] && next[|next| - 1] == writes[i];
    if i + 1 < |writes| {
      var shorter := writes[..|writes| - 1];
      WriteAllStops(shorter, i);
      assert shorter[..i + 1] == next;
    } else {
      assert next == writes;
    }
  }

  /** The receipt's own validators, on members whose paths have been normalized. */
  method ValidateReceipt(a: Attestation, exports: seq<Export>, m: Manifests) returns (ok: bool)
    requires forall i | 0 <= i < |exports| :: ValidateRelativePath(exports[i].relativePath) == Some(exports[i].relativePath)
    ensures ok <==> ValidReceipt(a, exports, m)
  {
    if !ValidAttestation(a) || exists i | 0 <= i < |exports| :: !WellBound(exports[i]) {
      return false;
    }
    if exports == [] || exists i | 0 <= i < |exports| :: exports[i].relativePath == RECEIPT_NAME {
      return false;
    }
    ok := ValidateMemberPathSet(RelativeParts(exports));
    if ok {
      ok := ValidateMemberPathSet(MaterializedParts(exports));
    }
    if ok && m.members(exports) != a.memberManifest {
      ok := false;
    }
    if ok {
      ok := ValidateRoles(a, exports, m);
    }
  }

  lemma WrittenTreeIsNormal(exports: seq<Export>, receipt: Content)
    requires ValidPaths(exports)
    ensures var r := WriteAll(EMPTY, Writes(exports, receipt));
            r.Some? && r.value.Directory? && NormalTree(r.value) && Holds(r.value, Writes(exports, receipt))
  {
    var w := Writes(exports, receipt);
    ValidWritesAreSeparate(exports, receipt);
    WritesAreExact(w);
    forall i | 0 <= i < |w| ensures NormalParts(w[i].path) {
      if i < |exports| {
        MaterializedText(exports[i]);
      } else {
        ReceiptNameNormal();
      }
    }
    WritesKeepNormal(w);
  }

  /** `materialize_private_catalog`, from the receipt on: with a valid receipt it fails only if the destination is taken
      or something outside goes wrong, and only a complete tree is ever visible. */
  method MaterializeCatalog(
    parent: ParentDirectory, destination: string, staging: string, a: Attestation, exports: seq<Export>, m: Manifests,
    receipt: Content, digest: Content -> string, faults: Faults)
    returns (ok: bool)
    requires staging != destination && staging !in parent.entries
    requires forall i | 0 <= i < |exports| :: ValidateRelativePath(exports[i].relativePath) == Some(exports[i].relativePath)
    modifies parent
    ensures ok <==> && ValidReceipt(a, exports, m) && destination !in old(parent.entries)
                    && (faults.failingWrite.Some? ==> faults.failingWrite.value > |exports|)
                    && faults.intruder.None? && !faults.renameFails && !faults.syncFails
    ensures ok ==> destination in parent.entries && Holds(parent.entries[destination], Writes(exports, receipt))
    ensures ok ==> ByAudience(parent.entries[destination], exports)
    ensures parent.entries - {destination, staging} == old(parent.entries) - {destination}
    ensures staging in parent.entries ==> !ok && faults.cleanup.Abandoned?
    ensures destination !in old(parent.entries) ==>
              forall k | |old(parent.history)| <= k < |parent.history| ::
                AllOrNothing(parent.history[k], destination, WriteAll(EMPTY, Writes(exports, receipt)), faults.intruder)
  {
    ok := ValidateReceipt(a, exports, m);
    if !ok {
      return;
    }
    WrittenTreeIsNormal(exports, receipt);
    ok := WriteAtomic(parent, destination, staging, Writes(exports, receipt), faults);
    if !ok {
      return;
    }
    WrittenByAudience(parent.entries[destination], exports, receipt);
    WrittenTreeVerifies(parent.entries[destination], a, exports, m, receipt, digest);
    ok := VerifyTree(parent.entries[destination], ListedFiles(exports, receipt), digest);
  }
}
