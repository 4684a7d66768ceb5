/** Materializing the trees of a launch: one byte budget threaded through the workspace and every asset. */
module GuestTransfer {
  import opened Wrappers
  import opened Octets
  import opened Paths

  /** Inline content; `decoded` is present when the text is canonical base64 of bytes with the stated digest. */
  datatype Blob = Blob(size: int, decoded: Option<Bytes>)

  datatype Kind = File | Directory | Unknown

  datatype Entry = Entry(path: string, kind: Kind, mode: nat, blob: Option<Blob>)

  datatype Tree = Tree(target: string, readonly: bool, rootIsFile: bool, rootMode: nat, rootBlob: Option<Blob>, entries: seq<Entry>)

  datatype Asset = Asset(assetId: string, tree: Tree)

  datatype Transfer = Transfer(workspace: Tree, artifactTarget: string, assets: seq<Asset>, outputLimit: nat)

  /** One file the agent writes. */
  datatype Write = Write(path: string, content: Bytes)

  predicate ValidTarget(target: string) {
    Rooted(target) && target != "/" && Clean(target) == target && "/edagym/" <= target
  }

  predicate ValidMode(mode: nat) {
    mode == 0x180 || mode == 0x1C0
  }

  /** `decodeBlob` */
  function DecodeBlob(blob: Blob, maximum: int): (r: Option<Bytes>)
    ensures r.Some? ==> |r.value| == blob.size <= maximum
  {
    if blob.size < 0 || blob.size > maximum || blob.decoded.None? || |blob.decoded.value| != blob.size then None
    else blob.decoded
  }

  function TotalBytes(writes: seq<Write>): nat {
    if writes == [] then 0 else TotalBytes(writes[..|writes| - 1]) + |writes[|writes| - 1].content|
  }

  lemma {:induction false} TotalBytesConcat(a: seq<Write>, b: seq<Write>)
    ensures TotalBytes(a + b) == TotalBytes(a) + TotalBytes(b)
  {
    if b == [] {
      assert a + b == a;
    } else {
      var n := |b| - 1;
      assert (a + b)[..|a| + n] == a + b[..n];
      TotalBytesConcat(a, b[..n]);
    }
  }

  ghost predicate DistinctPaths(writes: seq<Write>) {
    forall i, j | 0 <= i < j < |writes| :: writes[i].path != writes[j].path
  }

  /** `path` names `target` itself or something below it. */
  predicate AtOrBelow(path: string, target: seq<string>)
    requires target != []
  {
    path == Absolute(target) || Absolute(target) + "/" <= path
  }

  ghost predicate AllAtOrBelow(writes: seq<Write>, target: seq<string>)
    requires target != []
  {
    forall i | 0 <= i < |writes| :: AtOrBelow(writes[i].path, target)
  }

  /** The write an entry of a directory tree asks for, if it is a file. */
  function EntryWrites(target: string, e: Entry): seq<Write> {
    if e.kind == File && e.blob.Some? && e.blob.value.decoded.Some?
    then [Write(JoinPath(target, e.path), e.blob.value.decoded.value)] else []
  }

  function EntriesWrites(target: string, es: seq<Entry>): seq<Write> {
    if es == [] then [] else EntriesWrites(target, es[..|es| - 1]) + EntryWrites(target, es[|es| - 1])
  }

  function TreeWrites(t: Tree): seq<Write> {
    if t.rootIsFile then
      (if t.rootBlob.Some? && t.rootBlob.value.decoded.Some? then [Write(t.target, t.rootBlob.value.decoded.value)] else [])
    else EntriesWrites(t.target, t.entries)
  }

  /** An entry that is well formed on its own. */
  predicate GoodEntry(e: Entry) {
    && ValidRelative(e.path) && ValidMode(e.mode)
    && (e.kind == Directory ==> e.blob.None?)
    && (e.kind == File ==> e.blob.Some? && e.blob.value.decoded.Some? && |e.blob.value.decoded.value| == e.blob.value.size)
    && e.kind != Unknown
  }

  function PathSet(es: seq<Entry>): set<string> {
    if es == [] then {} else PathSet(es[..|es| - 1]) + {es[|es| - 1].path}
  }

  /** Good entries with pairwise different paths. */
  predicate GoodEntries(es: seq<Entry>) {
    es == [] || (var n := |es| - 1; GoodEntries(es[..n]) && GoodEntry(es[n]) && es[n].path !in PathSet(es[..n]))
  }

  lemma {:induction false} GoodEntriesPrefix(es: seq<Entry>, i: nat)
    requires GoodEntries(es) && i <= |es|
    ensures GoodEntries(es[..i])
  {
    if i == |es| {
      assert es[..i] == es;
    } else {
      GoodEntriesPrefix(es[..|es| - 1], i);
      assert es[..|es| - 1][..i] == es[..i];
    }
  }

  // ---------------------------------------------------------------------------
  // Files in the way of directories

  /** One of the two is a file at, or above, the place of the other. */
  predicate Clash(a: Entry, b: Entry) {
    || (a.kind == File && Split(a.path) <= Split(b.path))
    || (b.kind == File && Split(b.path) <= Split(a.path))
  }

  /** No file of the tree would have to be a directory for another entry. */
  predicate Unobstructed(es: seq<Entry>) {
    forall i, j | 0 <= i < j < |es| :: !Clash(es[i], es[j])
  }

  /** What exists below the target, by components: the files written and the directories made. */
  datatype Made = Made(files: set<seq<string>>, directories: set<seq<string>>)

  /** `MkdirAll` meets a file, or `WriteFile` a directory. */
  predicate Blocked(made: Made, e: Entry) {
    var p := Split(e.path);
    || (exists n | 1 <= n < |p| :: p[..n] in made.files)
    || (if e.kind == File then p in made.directories else p in made.files)
  }

  function WithEntry(made: Made, e: Entry): Made {
    var p := Split(e.path);
    var above := set n | 1 <= n < |p| :: p[..n];
    if e.kind == File then Made(made.files + {p}, made.directories + above)
    else Made(made.files, made.directories + above + {p})
  }

  function MadeBy(es: seq<Entry>): Made {
    if es == [] then Made({}, {}) else WithEntry(MadeBy(es[..|es| - 1]), es[|es| - 1])
  }

  lemma {:induction false} PathSetHas(es: seq<Entry>, i: nat)
    requires i < |es|
    ensures es[i].path in PathSet(es)
  {
    if i < |es| - 1 {
      PathSetHas(es[..|es| - 1], i);
    }
  }

  ghost predicate FileAt(es: seq<Entry>, q: seq<string>) {
    exists i :: 0 <= i < |es| && es[i].kind == File && Split(es[i].path) == q
  }

  /** Some entry makes a directory at `q`, on its way or as itself. */
  predicate MakesDirectory(e: Entry, q: seq<string>) {
    q != [] && q <= Split(e.path) && (e.kind == File ==> q != Split(e.path))
  }

  ghost predicate DirectoryAt(es: seq<Entry>, q: seq<string>) {
    exists i :: 0 <= i < |es| && MakesDirectory(es[i], q)
  }

  lemma OneMoreAt(es: seq<Entry>, n: nat, q: seq<string>)
    requires n == |es| - 1
    ensures FileAt(es, q) <==> FileAt(es[..n], q) || (es[n].kind == File && Split(es[n].path) == q)
    ensures DirectoryAt(es, q) <==> DirectoryAt(es[..n], q) || MakesDirectory(es[n], q)
  {
    assert forall i | 0 <= i < n :: es[..n][i] == es[i];
    if FileAt(es[..n], q) {
      var i :| 0 <= i < n && es[..n][i].kind == File && Split(es[..n][i].path) == q;
      assert es[i].kind == File && Split(es[i].path) == q;
    }
    if DirectoryAt(es[..n], q) {
      var i :| 0 <= i < n && MakesDirectory(es[..n][i], q);
      assert MakesDirectory(es[i], q);
    }
  }

  /** What stands below the target comes from the entries so far. */
  lemma {:induction false} MadeFrom(es: seq<Entry>, q: seq<string>)
    ensures q in MadeBy(es).files <==> FileAt(es, q)
    ensures q in MadeBy(es).directories <==> DirectoryAt(es, q)
  {
    if es != [] {
      var n := |es| - 1;
      MadeFrom(es[..n], q);
      OneMoreAt(es, n, q);
      AboveIsPrefix(Split(es[n].path), q);
    }
  }

  lemma AboveIsPrefix(p: seq<string>, q: seq<string>)
    ensures (q in set n | 1 <= n < |p| :: p[..n]) <==> q != [] && q <= p && q != p
  {
    if q != [] && q <= p && q != p {
      assert q == p[..|q|];
    }
  }

  lemma SamePartsSamePath(p: string, q: string)
    requires Split(p) == Split(q)
    ensures p == q
  {
    JoinSplit(p);
    JoinSplit(q);
  }

  /** With distinct paths, an entry is blocked exactly when it clashes with an earlier one. */
  lemma BlockedIsClash(es: seq<Entry>, e: Entry)
    requires e.path !in PathSet(es)
    ensures Blocked(MadeBy(es), e) <==> exists k :: 0 <= k < |es| && Clash(es[k], e)
  {
    var p, made := Split(e.path), MadeBy(es);
    forall k | 0 <= k < |es| ensures Split(es[k].path) != p {
      PathSetHas(es, k);
      if Split(es[k].path) == p {
        SamePartsSamePath(es[k].path, e.path);
      }
    }
    if Blocked(made, e) {
      BlockedNamesClash(es, e);
    }
    if k :| 0 <= k < |es| && Clash(es[k], e) {
      var q := Split(es[k].path);
      if es[k].kind == File && q <= p {
        MadeFrom(es, q);
        assert q == p[..|q|] && q != [];
      } else {
        assert MakesDirectory(es[k], p);
        MadeFrom(es, p);
      }
    }
  }

  lemma BlockedNamesClash(es: seq<Entry>, e: Entry)
    requires Blocked(MadeBy(es), e)
    ensures exists k :: 0 <= k < |es| && Clash(es[k], e)
  {
    var p, made := Split(e.path), MadeBy(es);
    MadeFrom(es, p);
    if e.kind == File && p in made.directories {
      var k :| 0 <= k < |es| && MakesDirectory(es[k], p);
      assert Clash(es[k], e);
    } else if p in made.files {
      var k :| 0 <= k < |es| && es[k].kind == File && Split(es[k].path) == p;
      assert Clash(es[k], e);
    } else {
      var n :| 1 <= n < |p| && p[..n] in made.files;
      MadeFrom(es, p[..n]);
      var k :| 0 <= k < |es| && es[k].kind == File && Split(es[k].path) == p[..n];
      assert Clash(es[k], e);
    }
  }

  /** Entries the loop can materialize below a target within a budget. */
  predicate Fitting(target: string, es: seq<Entry>, budget: int) {
    GoodEntries(es) && Unobstructed(es) && TotalBytes(EntriesWrites(target, es)) <= budget
  }

  /** A tree the loop can materialize within a budget, apart from operating-system errors. */
  predicate Transferable(t: Tree, budget: int) {
    && ValidTarget(t.target) && ValidMode(t.rootMode)
    && (t.rootIsFile ==> t.rootBlob.Some? && t.entries == [] && t.rootBlob.value.decoded.Some?
                         && |t.rootBlob.value.decoded.value| == t.rootBlob.value.size <= budget)
    && (!t.rootIsFile ==> t.rootBlob.None? && Fitting(t.target, t.entries, budget))
  }

  lemma EntriesGrow(target: string, es: seq<Entry>, i: nat)
    requires i < |es|
    ensures EntriesWrites(target, es[..i + 1]) == EntriesWrites(target, es[..i]) + EntryWrites(target, es[i])
    ensures PathSet(es[..i + 1]) == PathSet(es[..i]) + {es[i].path}
    ensures GoodEntries(es[..i + 1]) <==> GoodEntries(es[..i]) && GoodEntry(es[i]) && es[i].path !in PathSet(es[..i])
  {
    assert es[..i + 1][..i] == es[..i] && es[..i + 1][i] == es[i];
  }

  lemma {:induction false} EntriesPrefixFits(target: string, es: seq<Entry>, i: nat)
    requires i <= |es|
    ensures TotalBytes(EntriesWrites(target, es[..i])) <= TotalBytes(EntriesWrites(target, es))
    decreases |es| - i
  {
    if i == |es| {
      assert es[..i] == es;
    } else {
      EntriesGrow(target, es, i);
      TotalBytesConcat(EntriesWrites(target, es[..i]), EntryWrites(target, es[i]));
      EntriesPrefixFits(target, es, i + 1);
    }
  }

  lemma SingleWrite(w: Write)
    ensures TotalBytes([w]) == |w.content|
  {
    assert [w][..0] == [];
  }

  /** `materializeTree`, below a target that holds nothing yet.  `failing` are the paths at which the operating system
      refuses; without a refusal the tree is materialized exactly when it is transferable within the budget, and then by
      exactly its writes.  The budget is charged before a write, so a write that fails is paid for. */
  method MaterializeTree(t: Tree, budget: int, failing: set<string>) returns (ok: bool, left: int, writes: seq<Write>)
    requires budget >= 0
    ensures 0 <= left <= budget - TotalBytes(writes)
    ensures ok ==> Transferable(t, budget) && writes == TreeWrites(t) && left == budget - TotalBytes(writes)
    ensures failing == {} ==> (ok <==> Transferable(t, budget))
  {
    ok, left, writes := false, budget, [];
    if !ValidTarget(t.target) || !ValidMode(t.rootMode) {
      return;
    }
    if t.rootIsFile {
      if t.rootBlob.None? || |t.entries| != 0 {
        return;
      }
      var content := DecodeBlob(t.rootBlob.value, left);
      if t.rootBlob.value.decoded.Some? {
        SingleWrite(Write(t.target, t.rootBlob.value.decoded.value));
      }
      if content.None? {
        return;
      }
      left := left - |content.value|;
      if t.target in failing {
        return;
      }
      writes := [Write(t.target, content.value)];
      ok := true;
      return;
    }
    if t.rootBlob.Some? || t.target in failing {
      return;
    }
    ok, left, writes := MaterializeEntries(t.target, t.entries, budget, failing);
  }

  /** One pass of the loop, after the check that the path was not seen before. */
  method MaterializeEntry(target: string, e: Entry, made: Made, budget: int, failing: set<string>)
    returns (r: Option<seq<Write>>, left: int)
    requires budget >= 0
    ensures 0 <= left <= budget
    ensures r.Some? ==> && GoodEntry(e) && !Blocked(made, e) && r.value == EntryWrites(target, e)
                        && left == budget - TotalBytes(r.value)
    ensures failing == {} && GoodEntry(e) && !Blocked(made, e) && TotalBytes(EntryWrites(target, e)) <= budget ==> r.Some?
  {
    left := budget;
    if !ValidRelative(e.path) || !ValidMode(e.mode) {
      return None, left;
    }
    var destination := JoinPath(target, e.path);
    if e.kind == Directory {
      if e.blob.Some? || Blocked(made, e) || destination in failing {
        return None, left;
      }
      return Some([]), left;
    }
    if e.kind != File || e.blob.None? {
      return None, left;
    }
    var content := DecodeBlob(e.blob.value, left);
    if e.blob.value.decoded.Some? {
      SingleWrite(Write(destination, e.blob.value.decoded.value));
    }
    if content.None? {
      return None, left;
    }
    left := left - |content.value|;
    if Blocked(made, e) || destination in failing {
      return None, left;
    }
    return Some([Write(destination, content.value)]), left;
  }

  lemma FittingEntry(target: string, es: seq<Entry>, budget: int, i: nat)
    requires Fitting(target, es, budget) && i < |es|
    ensures GoodEntry(es[i]) && es[i].path !in PathSet(es[..i])
    ensures !Blocked(MadeBy(es[..i]), es[i])
    ensures TotalBytes(EntryWrites(target, es[i])) <= budget - TotalBytes(EntriesWrites(target, es[..i]))
  {
    EntriesGrow(target, es, i);
    GoodEntriesPrefix(es, i + 1);
    BlockedIsClash(es[..i], es[i]);
    TotalBytesConcat(EntriesWrites(target, es[..i]), EntryWrites(target, es[i]));
    EntriesPrefixFits(target, es, i + 1);
  }

  /** Entries up to `i` are unobstructed if those before it are and it is not blocked. */
  lemma UnobstructedGrows(es: seq<Entry>, i: nat)
    requires i < |es| && Unobstructed(es[..i]) && es[i].path !in PathSet(es[..i]) && !Blocked(MadeBy(es[..i]), es[i])
    ensures Unobstructed(es[..i + 1]) && MadeBy(es[..i + 1]) == WithEntry(MadeBy(es[..i]), es[i])
  {
    BlockedIsClash(es[..i], es[i]);
    var next, last := es[..i + 1], es[..i];
    assert next[..i] == last && next[i] == es[i];
    forall a, b | 0 <= a < b < |next| ensures !Clash(next[a], next[b]) {
      assert last[a] == next[a];
      if b < i {
        assert last[b] == next[b];
      }
    }
  }

  method MaterializeEntries(target: string, es: seq<Entry>, budget: int, failing: set<string>)
    returns (ok: bool, left: int, writes: seq<Write>)
    requires budget >= 0
    ensures 0 <= left <= budget - TotalBytes(writes)
    ensures ok ==> Fitting(target, es, budget) && writes == EntriesWrites(target, es) && left == budget - TotalBytes(writes)
    ensures failing == {} ==> (ok <==> Fitting(target, es, budget))
  {
    ok, left, writes := false, budget, [];
    var seen: set<string> := {};
    var made := Made({}, {});
    for index := 0 to |es|
      invariant writes == EntriesWrites(target, es[..index])
      invariant left == budget - TotalBytes(writes) && left >= 0
      invariant seen == PathSet(es[..index]) && made == MadeBy(es[..index])
      invariant GoodEntries(es[..index]) && Unobstructed(es[..index])
    {
      EntriesGrow(target, es, index);
      if Fitting(target, es, budget) {
        FittingEntry(target, es, budget, index);
      }
      if es[index].path in seen {
        return;
      }
      var written;
      written, left := MaterializeEntry(target, es[index], made, left, failing);
      if written.None? {
        return;
      }
      UnobstructedGrows(es, index);
      TotalBytesConcat(writes, written.value);
      writes := writes + written.value;
      seen := seen + {es[index].path};
      made := WithEntry(made, es[index]);
    }
    assert es[..|es|] == es;
    ok := true;
  }

  /** Two files, one named like a directory of the other, are never both written, in either order. */
  lemma FileAsDirectoryRefused(t: Tree, budget: int, i: nat, j: nat)
    requires !t.rootIsFile && i < |t.entries| && j < |t.entries| && i != j
    requires t.entries[i] == Entry("a", File, t.entries[i].mode, t.entries[i].blob) && t.entries[j].path == "a/b"
    ensures !Transferable(t, budget)
  {
    SplitOne("a");
    SplitOne("b");
    SplitJoin(["a", "b"]);
    assert Join(["a", "b"]) == "a/b";
    assert Clash(t.entries[i], t.entries[j]) && Clash(t.entries[j], t.entries[i]);
  }

  // ---------------------------------------------------------------------------
  // Where the writes land

  /** Different relative paths name different files below a target. */
  lemma JoinPathInjective(target: seq<string>, p: string, q: string)
    requires target != [] && NormalParts(target) && ValidRelative(p) && ValidRelative(q)
    requires JoinPath(Absolute(target), p) == JoinPath(Absolute(target), q)
    ensures p == q
  {
    JoinBelow(target, p);
    JoinBelow(target, q);
    AbsoluteInjective(target + Split(p), target + Split(q));
    assert Split(p) == (target + Split(p))[|target|..] == (target + Split(q))[|target|..] == Split(q);
    JoinSplit(p);
    JoinSplit(q);
  }

  lemma JoinPathBelow(target: seq<string>, p: string)
    requires target != [] && NormalParts(target) && ValidRelative(p)
    ensures AtOrBelow(JoinPath(Absolute(target), p), target)
  {
    JoinBelow(target, p);
    JoinConcat(target, Split(p));
    LeadingText(Join(target), Join(Split(p)));
  }

  lemma LeadingText(a: string, b: string)
    ensures ("/" + a) + "/" <= "/" + (a + "/" + b)
  {
    assert "/" + (a + "/" + b) == (("/" + a) + "/") + b;
  }

  /** Every write comes from an entry's path. */
  lemma {:induction false} WritesComeFromEntries(target: seq<string>, es: seq<Entry>, k: nat) returns (p: string)
    requires target != [] && NormalParts(target) && GoodEntries(es) && k < |EntriesWrites(Absolute(target), es)|
    ensures p in PathSet(es) && ValidRelative(p) && EntriesWrites(Absolute(target), es)[k].path == JoinPath(Absolute(target), p)
  {
    var n := |es| - 1;
    if k < |EntriesWrites(Absolute(target), es[..n])| {
      p := WritesComeFromEntries(target, es[..n], k);
    } else {
      p := es[n].path;
    }
  }

  lemma {:induction false} EntriesWritesPlaced(target: seq<string>, es: seq<Entry>)
    requires target != [] && NormalParts(target) && GoodEntries(es)
    ensures AllAtOrBelow(EntriesWrites(Absolute(target), es), target)
    ensures DistinctPaths(EntriesWrites(Absolute(target), es))
  {
    if es != [] {
      var n := |es| - 1;
      var base := Absolute(target);
      var before := EntriesWrites(base, es[..n]);
      EntriesWritesPlaced(target, es[..n]);
      JoinPathBelow(target, es[n].path);
      forall k | 0 <= k < |before| ensures before[k].path != JoinPath(base, es[n].path) {
        var p := WritesComeFromEntries(target, es[..n], k);
        if before[k].path == JoinPath(base, es[n].path) {
          JoinPathInjective(target, p, es[n].path);
        }
      }
    }
  }

  lemma TreeWritesPlaced(t: Tree, target: seq<string>)
    requires target != [] && NormalParts(target) && t.target == Absolute(target) && (t.rootIsFile || GoodEntries(t.entries))
    ensures AllAtOrBelow(TreeWrites(t), target) && DistinctPaths(TreeWrites(t))
  {
    if t.rootIsFile {
      assert AtOrBelow(t.target, target);
    } else {
      EntriesWritesPlaced(target, t.entries);
    }
  }

  // ---------------------------------------------------------------------------
  // One launch

  predicate IdentifierChar(c: char) {
    'a' <= c <= 'z' || '0' <= c <= '9'
  }

  predicate Separator(c: char) {
    c == '.' || c == '_' || c == '-'
  }

  /** `^[a-z][a-z0-9]*(?:[._-][a-z0-9]+)*$` */
  predicate Identifier(s: string) {
    && s != [] && 'a' <= s[0] <= 'z' && IdentifierChar(s[|s| - 1])
    && (forall i | 0 <= i < |s| :: IdentifierChar(s[i]) || Separator(s[i]))
    && (forall i | 0 < i < |s| && Separator(s[i]) :: IdentifierChar(s[i - 1]))
  }

  lemma IdentifierIsNormal(s: string)
    requires Identifier(s)
    ensures NormalPart(s)
  {
    assert forall i | 0 <= i < |s| :: s[i] != '/';
  }

  const WORKSPACE := ["edagym", "workspace"]

  function AssetParts(id: string): seq<string> {
    ["edagym", "assets", id]
  }

  predicate ValidAsset(a: Asset) {
    Identifier(a.assetId) && a.tree.readonly && a.tree.target == Absolute(AssetParts(a.assetId))
  }

  /** The transfer clauses of `validLaunch`; the three joined paths are written by components. */
  predicate ValidTransfers(x: Transfer) {
    && x.workspace.target == Absolute(WORKSPACE) && x.artifactTarget == Absolute(["edagym", "artifacts"])
    && !x.workspace.readonly && !x.workspace.rootIsFile
    && (forall i | 0 <= i < |x.assets| :: ValidAsset(x.assets[i]))
    && (forall i, j | 0 <= i < j < |x.assets| :: x.assets[i].assetId != x.assets[j].assetId)
  }

  function AssetsWrites(assets: seq<Asset>): seq<Write> {
    if assets == [] then [] else AssetsWrites(assets[..|assets| - 1]) + TreeWrites(assets[|assets| - 1].tree)
  }

  lemma AssetsWritesGrow(assets: seq<Asset>, i: nat)
    requires i < |assets|
    ensures AssetsWrites(assets[..i + 1]) == AssetsWrites(assets[..i]) + TreeWrites(assets[i].tree)
  {
    assert assets[..i + 1][..i] == assets[..i];
  }

  /** Below the workspace, or below one of the first `n` assets. */
  ghost predicate Placed(path: string, assets: seq<Asset>, n: nat)
    requires n <= |assets|
  {
    AtOrBelow(path, WORKSPACE) || exists i | 0 <= i < n :: AtOrBelow(path, AssetParts(assets[i].assetId))
  }

  /** The components of a path at or below a target start with the target's. */
  lemma LeadingParts(path: string, target: seq<string>)
    requires target != [] && NormalParts(target) && AtOrBelow(path, target)
    ensures [""] + target <= Split(path)
  {
    if path == Absolute(target) {
      SplitAbsolute(target);
    } else {
      var rest := path[|Absolute(target)| + 1..];
      assert path == Absolute(target) + "/" + rest;
      SplitBelow(target, rest);
    }
  }

  lemma DisjointTargets(path: string, a: seq<string>, b: seq<string>, k: nat)
    requires k < |a| && k < |b| && a[k] != b[k] && NormalParts(a) && NormalParts(b)
    ensures !(AtOrBelow(path, a) && AtOrBelow(path, b))
  {
    assert ([""] + a)[k + 1] == a[k] && ([""] + b)[k + 1] == b[k];
    if AtOrBelow(path, a) && AtOrBelow(path, b) {
      LeadingParts(path, a);
      LeadingParts(path, b);
    }
  }

  ghost predicate AllPlaced(writes: seq<Write>, assets: seq<Asset>, n: nat)
    requires n <= |assets|
  {
    forall k | 0 <= k < |writes| :: Placed(writes[k].path, assets, n)
  }

  lemma PlacedElsewhere(x: Transfer, n: nat, writes: seq<Write>, written: seq<Write>)
    requires ValidTransfers(x) && n < |x.assets|
    requires DistinctPaths(writes) && DistinctPaths(written)
    requires AllPlaced(writes, x.assets, n)
    requires AllAtOrBelow(written, AssetParts(x.assets[n].assetId))
    ensures DistinctPaths(writes + written)
    ensures AllPlaced(writes + written, x.assets, n + 1)
  {
    var id := x.assets[n].assetId;
    IdentifierIsNormal(id);
    forall k, m | 0 <= k < |writes| && 0 <= m < |written| ensures writes[k].path != written[m].path {
      var path := written[m].path;
      assert AtOrBelow(path, AssetParts(id));
      DisjointTargets(path, WORKSPACE, AssetParts(id), 1);
      forall i | 0 <= i < n ensures !AtOrBelow(path, AssetParts(x.assets[i].assetId)) {
        IdentifierIsNormal(x.assets[i].assetId);
        DisjointTargets(path, AssetParts(x.assets[i].assetId), AssetParts(id), 2);
      }
      assert Placed(writes[k].path, x.assets, n);
    }
  }

  /** Where the launch stands after the workspace and `n` assets. */
  ghost predicate Progress(x: Transfer, n: nat, writes: seq<Write>)
    requires n <= |x.assets|
  {
    && writes == TreeWrites(x.workspace) + AssetsWrites(x.assets[..n])
    && DistinctPaths(writes)
    && (forall i | 0 <= i < n :: AssetInPlace(x.assets[i]))
    && AllPlaced(writes, x.assets, n)
  }

  ghost predicate AssetInPlace(a: Asset) {
    AllAtOrBelow(TreeWrites(a.tree), AssetParts(a.assetId)) && DistinctPaths(TreeWrites(a.tree))
  }

  lemma ProgressStart(x: Transfer)
    requires ValidTransfers(x) && Transferable(x.workspace, x.outputLimit)
    ensures AllAtOrBelow(TreeWrites(x.workspace), WORKSPACE) && Progress(x, 0, TreeWrites(x.workspace))
  {
    WorkspacePlaced(x.workspace);
    StartOf(x, TreeWrites(x.workspace));
  }

  lemma WorkspacePlaced(t: Tree)
    requires t.target == Absolute(WORKSPACE) && (t.rootIsFile || GoodEntries(t.entries))
    ensures DistinctPaths(TreeWrites(t)) && AllAtOrBelow(TreeWrites(t), WORKSPACE)
  {
    assert NormalParts(WORKSPACE);
    TreeWritesPlaced(t, WORKSPACE);
  }

  lemma StartOf(x: Transfer, writes: seq<Write>)
    requires writes == TreeWrites(x.workspace) && DistinctPaths(writes) && AllAtOrBelow(writes, WORKSPACE)
    ensures Progress(x, 0, writes)
  {
    assert x.assets[..0] == [];
    assert writes + [] == writes;
    assert AllPlaced(writes, x.assets, 0);
  }

  lemma AssetPlaced(a: Asset, budget: int)
    requires ValidAsset(a) && Transferable(a.tree, budget)
    ensures AssetInPlace(a)
  {
    IdentifierIsNormal(a.assetId);
    TreeWritesPlaced(a.tree, AssetParts(a.assetId));
  }

  lemma AppendAssociates(a: seq<Write>, b: seq<Write>, c: seq<Write>)
    ensures a + b + c == a + (b + c)
  {
  }

  lemma ProgressStep(x: Transfer, n: nat, writes: seq<Write>, own: seq<Write>)
    requires ValidTransfers(x) && n < |x.assets| && Progress(x, n, writes)
    requires AssetInPlace(x.assets[n]) && own == TreeWrites(x.assets[n].tree)
    ensures Progress(x, n + 1, writes + own)
  {
    assert DistinctPaths(writes + own) && AllPlaced(writes + own, x.assets, n + 1) by {
      PlacedElsewhere(x, n, writes, own);
    }
    assert writes + own == TreeWrites(x.workspace) + AssetsWrites(x.assets[..n + 1]) by {
      AssetsWritesGrow(x.assets, n);
      AppendAssociates(TreeWrites(x.workspace), AssetsWrites(x.assets[..n]), own);
    }
  }

  /** The transfers of one launch in the loop's order.  On success exactly the declared files were written, their
      bytes fit the output limit, each lies at or below its tree's target, and no path is written twice. */
  method MaterializeLaunch(x: Transfer, failing: set<string>) returns (ok: bool, writes: seq<Write>)
    requires ValidTransfers(x)
    ensures TotalBytes(writes) <= x.outputLimit
    ensures ok ==> writes == TreeWrites(x.workspace) + AssetsWrites(x.assets) && DistinctPaths(writes)
    ensures ok ==> AllAtOrBelow(TreeWrites(x.workspace), WORKSPACE)
    ensures ok ==> forall i | 0 <= i < |x.assets| ::
                     AllAtOrBelow(TreeWrites(x.assets[i].tree), AssetParts(x.assets[i].assetId))
  {
    var budget: int;
    ok, budget, writes := MaterializeTree(x.workspace, x.outputLimit, failing);
    if !ok || !ValidTarget(x.artifactTarget) || x.artifactTarget in failing {
      ok := false;
      return;
    }
    ProgressStart(x);
    ok, writes := MaterializeAssets(x, budget, writes, failing);
  }

  /** The loop over the assets, starting from what the workspace used of the budget. */
  method MaterializeAssets(x: Transfer, start: int, workspaceWrites: seq<Write>, failing: set<string>)
    returns (ok: bool, writes: seq<Write>)
    requires ValidTransfers(x) && Progress(x, 0, workspaceWrites)
    requires start == x.outputLimit - TotalBytes(workspaceWrites) && start >= 0
    ensures TotalBytes(writes) <= x.outputLimit
    ensures ok ==> writes == TreeWrites(x.workspace) + AssetsWrites(x.assets) && DistinctPaths(writes)
    ensures ok ==> forall i | 0 <= i < |x.assets| ::
                     AllAtOrBelow(TreeWrites(x.assets[i].tree), AssetParts(x.assets[i].assetId))
  {
    var budget := start;
    writes := workspaceWrites;
    for index := 0 to |x.assets|
      invariant budget == x.outputLimit - TotalBytes(writes) && budget >= 0
      invariant Progress(x, index, writes)
    {
      ghost var before := budget;
      var written;
      ok, budget, written := MaterializeTree(x.assets[index].tree, budget, failing);
      TotalBytesConcat(writes, written);
      if !ok {
        writes := writes + written;
        return;
      }
      AssetPlaced(x.assets[index], before);
      ProgressStep(x, index, writes, written);
      writes := writes + written;
    }
    ProgressEnd(x, writes);
    ok := true;
  }

  lemma ProgressEnd(x: Transfer, writes: seq<Write>)
    requires Progress(x, |x.assets|, writes)
    ensures writes == TreeWrites(x.workspace) + AssetsWrites(x.assets) && DistinctPaths(writes)
    ensures forall i | 0 <= i < |x.assets| :: AllAtOrBelow(TreeWrites(x.assets[i].tree), AssetParts(x.assets[i].assetId))
  {
    assert x.assets[..|x.assets|] == x.assets;
  }
}
