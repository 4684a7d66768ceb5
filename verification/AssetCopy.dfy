/** The bounded copier of restricted qualification assets.

    A source tree is a value: it does not change while it is copied.  A directory lists its entries in the order the
    copier visits them; nothing below depends on which order that is.
 */
module AssetCopy {
  import opened Wrappers
  import opened Octets

  const MAX_ENTRIES := 4096
  const MAX_TOTAL_BYTES := 16 * 1024 * 1024 * 1024
  const MAX_DEPTH := 32
  const MAX_PATH_BYTES := 4096
  const READ_BYTES := 1024 * 1024

  const PRIVATE_DIRECTORY_MODE := 448
  const PRIVATE_FILE_MODE := 384
  const PRIVATE_EXECUTABLE_MODE := 448

  /** A directory entry's name as the file system stores it; never empty. */
  type Name = s: seq<byte> | s != [] witness [1]

  const SLASH: byte := 47
  const DOT: byte := 46

  datatype Node =
    | File(owned: bool, links: nat, mode: nat, content: seq<byte>)
    | Directory(owned: bool, entries: seq<Entry>)
    | Link
    | Special

  datatype Entry = Entry(name: Name, node: Node)

  datatype Copy =
    | CopiedFile(mode: nat, content: seq<byte>)
    | CopiedDirectory(mode: nat, entries: map<Name, Copy>)

  /** `S_IXUSR` */
  predicate OwnerExecutable(mode: nat) {
    mode / 64 % 2 == 1
  }

  predicate ValidName(name: Name) {
    name != [DOT] && name != [DOT, DOT] && SLASH !in name && 0 !in name
  }

  // ---------------------------------------------------------------------------
  // What a tree measures
  // ---------------------------------------------------------------------------

  function Max(a: nat, b: nat): nat {
    if a < b then b else a
  }

  function Entries(node: Node): nat {
    1 + if node.Directory? then EntriesOf(node.entries) else 0
  }

  function EntriesOf(es: seq<Entry>): nat {
    if es == [] then 0 else EntriesOf(es[..|es| - 1]) + Entries(es[|es| - 1].node)
  }

  function Bytes(node: Node): nat {
    match node
    case File(_, _, _, content) => |content|
    case Directory(_, entries) => BytesOf(entries)
    case _ => 0
  }

  function BytesOf(es: seq<Entry>): nat {
    if es == [] then 0 else BytesOf(es[..|es| - 1]) + Bytes(es[|es| - 1].node)
  }

  /** The number of levels below a node. */
  function Height(node: Node): nat {
    if node.Directory? then HeightOf(node.entries) else 0
  }

  function HeightOf(es: seq<Entry>): nat {
    if es == [] then 0 else Max(HeightOf(es[..|es| - 1]), 1 + Height(es[|es| - 1].node))
  }

  /** The length of a path extended by a tail; an empty part brings no separator. */
  function Joined(prefix: nat, tail: nat): nat {
    if prefix == 0 then tail else if tail == 0 then prefix else prefix + 1 + tail
  }

  /** The bytes of the longest path below a node, relative to it. */
  function Reach(node: Node): nat {
    if node.Directory? then ReachOf(node.entries) else 0
  }

  function ReachOf(es: seq<Entry>): nat {
    if es == [] then 0 else Max(ReachOf(es[..|es| - 1]), Joined(|es[|es| - 1].name|, Reach(es[|es| - 1].node)))
  }

  predicate Safe(node: Node) {
    match node
    case File(owned, links, _, _) => owned && links == 1
    case Directory(owned, entries) => owned && SafeEntries(entries)
    case _ => false
  }

  predicate SafeEntries(es: seq<Entry>) {
    forall i | 0 <= i < |es| :: ValidName(es[i].name) && Safe(es[i].node)
  }

  predicate DistinctNames(es: seq<Entry>) {
    forall i, j | 0 <= i < j < |es| :: es[i].name != es[j].name
  }

  /** What a file system guarantees: no directory lists a name twice. */
  predicate WellFormed(node: Node) {
    node.Directory? ==> DistinctNames(node.entries) && forall i | 0 <= i < |node.entries| :: WellFormed(node.entries[i].node)
  }

  predicate Acceptable(node: Node) {
    && Safe(node)
    && Height(node) <= MAX_DEPTH
    && Reach(node) <= MAX_PATH_BYTES
    && Entries(node) <= MAX_ENTRIES
    && Bytes(node) <= MAX_TOTAL_BYTES
  }

  /** The same tree with private modes. */
  function Copied(node: Node): Copy
    requires Safe(node)
  {
    match node
    case File(_, _, mode, content) =>
      CopiedFile(if OwnerExecutable(mode) then PRIVATE_EXECUTABLE_MODE else PRIVATE_FILE_MODE, content)
    case Directory(_, entries) => CopiedDirectory(PRIVATE_DIRECTORY_MODE, CopiedEntries(entries))
  }

  function CopiedEntries(es: seq<Entry>): map<Name, Copy>
    requires SafeEntries(es)
  {
    if es == [] then map[] else
    CopiedEntries(es[..|es| - 1])[es[|es| - 1].name := Copied(es[|es| - 1].node)]
  }

  // ---------------------------------------------------------------------------
  // The copier
  // ---------------------------------------------------------------------------

  class Budget {
    var entries: int
    var totalBytes: int

    ghost predicate Valid()
      reads this
    {
      0 <= entries <= MAX_ENTRIES && 0 <= totalBytes <= MAX_TOTAL_BYTES
    }

    constructor ()
      ensures Valid() && entries == 0 && totalBytes == 0
    {
      entries := 0;
      totalBytes := 0;
    }

    method Account(node: Node, pathBytes: nat, depth: nat) returns (ok: bool)
      requires Valid()
      modifies this
      ensures var size := if node.File? then |node.content| else 0;
              ok <==> && depth <= MAX_DEPTH && pathBytes <= MAX_PATH_BYTES
                      && old(entries) + 1 <= MAX_ENTRIES && old(totalBytes) + size <= MAX_TOTAL_BYTES
      ensures ok ==> Valid() && entries == old(entries) + 1
                     && totalBytes == old(totalBytes) + if node.File? then |node.content| else 0
    {
      if depth > MAX_DEPTH || pathBytes > MAX_PATH_BYTES {
        return false;
      }
      entries := entries + 1;
      if entries > MAX_ENTRIES {
        return false;
      }
      if node.File? {
        if |node.content| > MAX_TOTAL_BYTES - totalBytes {
          return false;
        }
        totalBytes := totalBytes + |node.content|;
      }
      ok := true;
    }
  }

  /** Copies a file through reads and writes of any positive size: it succeeds exactly when the file has the size it
      was announced with, and then the copy holds its bytes. */
  method CopyFileBytes(source: seq<byte>, expectedSize: nat) returns (r: Option<seq<byte>>)
    ensures r == if |source| == expectedSize then Some(source) else None
  {
    var destination: seq<byte> := [];
    var position := 0;
    var remaining := expectedSize;
    while remaining > 0
      invariant 0 <= position <= |source|
      invariant destination == source[..position]
      invariant 0 <= remaining == expectedSize - position
    {
      var limit := if remaining < READ_BYTES then remaining else READ_BYTES;
      var available := |source| - position;
      if available == 0 {
        return None;
      }
      var count :| 1 <= count <= limit && count <= available;
      var view := source[position..position + count];
      while view != []
        invariant |view| <= count
        invariant destination + view == source[..position + count]
        decreases |view|
      {
        var written :| 1 <= written <= |view|;
        assert view == view[..written] + view[written..];
        destination := destination + view[..written];
        view := view[written..];
      }
      position := position + count;
      remaining := remaining - count;
    }
    if position < |source| {
      return None;
    }
    assert source[..position] == source;
    r := Some(destination);
  }

  function NamesOf(es: seq<Entry>): seq<Name> {
    seq(|es|, i requires 0 <= i < |es| => es[i].name)
  }

  /** The names of a directory, unless there are more of them than entries are left. */
  method BoundedNames(es: seq<Entry>, maximum: int) returns (r: Option<seq<Name>>)
    requires maximum >= 0
    ensures r == if |es| <= maximum then Some(NamesOf(es)) else None
  {
    var names: seq<Name> := [];
    for i := 0 to |es|
      invariant |names| == i <= maximum
      invariant forall k | 0 <= k < i :: names[k] == es[k].name
    {
      names := names + [es[i].name];
      if |names| > maximum {
        return None;
      }
    }
    assert names == NamesOf(es);
    r := Some(names);
  }

  /** Whether entries can be copied below a path of `prefix` bytes at `depth`, given what is already accounted for. */
  predicate Fits(es: seq<Entry>, prefix: nat, depth: nat, entries: int, bytes: int) {
    && SafeEntries(es)
    && (es != [] ==> depth + HeightOf(es) <= MAX_DEPTH && Joined(prefix, ReachOf(es)) <= MAX_PATH_BYTES)
    && entries + EntriesOf(es) <= MAX_ENTRIES
    && bytes + BytesOf(es) <= MAX_TOTAL_BYTES
  }

  lemma {:induction false} EveryEntryCounts(es: seq<Entry>)
    ensures |es| <= EntriesOf(es)
    ensures es != [] ==> HeightOf(es) > 0 && ReachOf(es) > 0
  {
    if es != [] {
      EveryEntryCounts(es[..|es| - 1]);
    }
  }

  lemma {:induction false} MeasuresGrow(es: seq<Entry>, n: nat)
    requires n <= |es|
    ensures EntriesOf(es[..n]) <= EntriesOf(es) && BytesOf(es[..n]) <= BytesOf(es)
    ensures HeightOf(es[..n]) <= HeightOf(es) && ReachOf(es[..n]) <= ReachOf(es)
  {
    if n < |es| {
      MeasuresGrow(es[..|es| - 1], n);
      assert es[..|es| - 1][..n] == es[..n];
    } else {
      assert es[..n] == es;
    }
  }

  /** Entries that fit do so from any prefix of them on. */
  lemma FitsShrinks(es: seq<Entry>, n: nat, prefix: nat, depth: nat, entries: int, bytes: int)
    requires n <= |es| && Fits(es, prefix, depth, entries, bytes)
    ensures Fits(es[..n], prefix, depth, entries, bytes)
  {
    MeasuresGrow(es, n);
    EveryEntryCounts(es);
  }

  lemma NextMeasures(es: seq<Entry>, i: nat)
    requires i < |es|
    ensures var next, last, node := es[..i + 1], es[..i], es[i].node;
            && (SafeEntries(next) <==> SafeEntries(last) && ValidName(es[i].name) && Safe(node))
            && EntriesOf(next) == EntriesOf(last) + Entries(node)
            && BytesOf(next) == BytesOf(last) + Bytes(node)
            && HeightOf(next) == Max(HeightOf(last), 1 + Height(node))
            && ReachOf(next) == Max(ReachOf(last), Joined(|es[i].name|, Reach(node)))
  {
    var next := es[..i + 1];
    assert next[..|next| - 1] == es[..i] && next[|next| - 1] == es[i];
  }

  /** One more entry fits exactly when the earlier ones do, the entry itself passes every check, and what lies below
      it fits in what is then left. */
  lemma FitsNext(es: seq<Entry>, i: nat, prefix: nat, depth: nat, entries: int, bytes: int)
    requires i < |es| && entries >= 0 && bytes >= 0
    ensures var node := es[i].node;
            var size := if node.File? then |node.content| else 0;
            var path := Joined(prefix, |es[i].name|);
            var n, b := entries + EntriesOf(es[..i]) + 1, bytes + BytesOf(es[..i]) + size;
            Fits(es[..i + 1], prefix, depth, entries, bytes) <==>
            && Fits(es[..i], prefix, depth, entries, bytes)
            && ValidName(es[i].name) && (node.File? ==> Safe(node)) && (node.Directory? ==> node.owned)
            && (node.File? || node.Directory?)
            && depth + 1 <= MAX_DEPTH && path <= MAX_PATH_BYTES && n <= MAX_ENTRIES && b <= MAX_TOTAL_BYTES
            && (node.Directory? ==> Fits(node.entries, path, depth + 1, n, b))
  {
    NextMeasures(es, i);
    if es[i].node.Directory? {
      EveryEntryCounts(es[i].node.entries);
    }
  }

  lemma {:induction false} CopiedEntriesHold(es: seq<Entry>, name: Name)
    requires SafeEntries(es) && DistinctNames(es)
    ensures name in CopiedEntries(es) <==> exists i :: 0 <= i < |es| && es[i].name == name
    ensures forall i | 0 <= i < |es| && es[i].name == name :: name in CopiedEntries(es) && CopiedEntries(es)[name] == Copied(es[i].node)
  {
    if es != [] {
      CopiedEntriesHold(es[..|es| - 1], name);
      assert forall i | 0 <= i < |es| - 1 :: es[..|es| - 1][i] == es[i];
    }
  }

  /** One file: the copy has the announced bytes and the private mode for its kind. */
  method CopyFile(node: Node) returns (r: Option<Copy>)
    requires node.File? && Safe(node)
    ensures r == Some(Copied(node))
  {
    var mode := if OwnerExecutable(node.mode) then PRIVATE_EXECUTABLE_MODE else PRIVATE_FILE_MODE;
    var content := CopyFileBytes(node.content, |node.content|);
    r := match content case Some(bytes) => Some(CopiedFile(mode, bytes)) case None => None;
  }

  /** Fills a new directory.  It succeeds exactly when everything below fits, so the early check on the number of
      names refuses nothing the full count would accept; on success the counters have grown by the true totals. */
  method CopyDirectory(es: seq<Entry>, prefix: nat, depth: nat, budget: Budget) returns (r: Option<map<Name, Copy>>)
    requires budget.Valid()
    requires DistinctNames(es) && forall i | 0 <= i < |es| :: WellFormed(es[i].node)
    modifies budget
    ensures r.Some? <==> Fits(es, prefix, depth, old(budget.entries), old(budget.totalBytes))
    ensures r.Some? ==>
              && r.value == CopiedEntries(es) && budget.Valid()
              && budget.entries == old(budget.entries) + EntriesOf(es)
              && budget.totalBytes == old(budget.totalBytes) + BytesOf(es)
    decreases es, 2
  {
    ghost var entries, bytes := budget.entries, budget.totalBytes;
    EveryEntryCounts(es);
    var names := BoundedNames(es, MAX_ENTRIES - budget.entries);
    if names.None? {
      return None;
    }
    var made: map<Name, Copy> := map[];
    var i := 0;
    while i < |es|
      invariant i <= |es| && budget.Valid()
      invariant Fits(es[..i], prefix, depth, entries, bytes)
      invariant budget.entries == entries + EntriesOf(es[..i])
      invariant budget.totalBytes == bytes + BytesOf(es[..i])
      invariant made == CopiedEntries(es[..i])
    {
      if Fits(es, prefix, depth, entries, bytes) {
        FitsShrinks(es, i + 1, prefix, depth, entries, bytes);
      }
      NextEntry(es, i);
      var child := CopyEntry(es, i, prefix, depth, made, budget, entries, bytes);
      if child.None? {
        return None;
      }
      made := made[es[i].name := child.value];
      i := i + 1;
    }
    assert es[..i] == es;
    var again := BoundedNames(es, MAX_ENTRIES);
    if again != names {
      return None;
    }
    r := Some(made);
  }

  /** `_require_safe_source`, after links have been refused. */
  predicate SafeSource(node: Node) {
    match node
    case File(owned, links, _, _) => owned && links == 1
    case Directory(owned, _) => owned
    case _ => false
  }

  lemma NextEntry(es: seq<Entry>, i: nat)
    requires i < |es| && DistinctNames(es) && SafeEntries(es[..i])
    ensures es[i].name !in CopiedEntries(es[..i])
    ensures SafeEntries(es[..i + 1]) ==> Safe(es[i].node) && CopiedEntries(es[..i + 1]) == CopiedEntries(es[..i])[es[i].name := Copied(es[i].node)]
  {
    CopiedEntriesHold(es[..i], es[i].name);
    assert es[..i + 1][..i] == es[..i] && es[..i + 1][i] == es[i];
  }

  /** One turn of the loop: the entry is copied exactly when the entries up to it fit. */
  method CopyEntry(
    es: seq<Entry>, i: nat, prefix: nat, depth: nat, made: map<Name, Copy>, budget: Budget, ghost entries: int, ghost bytes: int)
    returns (r: Option<Copy>)
    requires i < |es| && budget.Valid() && WellFormed(es[i].node) && es[i].name !in made
    requires entries >= 0 && bytes >= 0 && Fits(es[..i], prefix, depth, entries, bytes)
    requires budget.entries == entries + EntriesOf(es[..i]) && budget.totalBytes == bytes + BytesOf(es[..i])
    modifies budget
    ensures r.Some? <==> Fits(es[..i + 1], prefix, depth, entries, bytes)
    ensures r.Some? ==>
              && Safe(es[i].node) && r.value == Copied(es[i].node) && budget.Valid()
              && budget.entries == entries + EntriesOf(es[..i + 1])
              && budget.totalBytes == bytes + BytesOf(es[..i + 1])
    decreases es, 1
  {
    FitsNext(es, i, prefix, depth, entries, bytes);
    NextMeasures(es, i);
    var node, name := es[i].node, es[i].name;
    if !ValidName(name) || !SafeSource(node) {
      return None;
    }
    var path := Joined(prefix, |name|);
    var within := budget.Account(node, path, depth + 1);
    if !within || name in made {
      return None;
    }
    if node.Directory? {
      var below := CopyDirectory(node.entries, path, depth + 1, budget);
      r := match below case Some(copies) => Some(CopiedDirectory(PRIVATE_DIRECTORY_MODE, copies)) case None => None;
    } else {
      r := CopyFile(node);
    }
  }

  lemma RootFits(root: Node)
    requires root.Directory? && root.owned
    ensures Acceptable(root) <==> Fits(root.entries, 0, 0, 1, 0)
  {
    var es := root.entries;
    assert Height(root) == HeightOf(es) && Reach(root) == ReachOf(es);
    assert Entries(root) == 1 + EntriesOf(es) && Bytes(root) == BytesOf(es);
    assert es == [] ==> HeightOf(es) == 0 && ReachOf(es) == 0;
  }

  /** A whole asset: copied exactly when the tree is safe and within every limit, and then in full; the budget has
      counted every entry and every byte of it. */
  method CopySnapshot(root: Node) returns (r: Option<Copy>, entries: int, totalBytes: int)
    requires WellFormed(root)
    ensures r.Some? <==> Acceptable(root)
    ensures r.Some? ==> r.value == Copied(root) && entries == Entries(root) && totalBytes == Bytes(root)
  {
    var budget := new Budget();
    r, entries, totalBytes := None, 0, 0;
    if !SafeSource(root) {
      return;
    }
    var within := budget.Account(root, 0, 0);
    if !within {
      return;
    }
    if root.File? {
      r := CopyFile(root);
    } else {
      RootFits(root);
      var below := CopyDirectory(root.entries, 0, 0, budget);
      if below.None? {
        return;
      }
      r := Some(CopiedDirectory(PRIVATE_DIRECTORY_MODE, below.value));
    }
    entries, totalBytes := budget.entries, budget.totalBytes;
  }

  // ---------------------------------------------------------------------------
  // The tree that the copy is checked against afterwards
  // ---------------------------------------------------------------------------

  /** `_require_private_tree` */
  predicate PrivateTree(copy: Copy) {
    match copy
    case CopiedFile(mode, _) => mode == if OwnerExecutable(mode) then PRIVATE_EXECUTABLE_MODE else PRIVATE_FILE_MODE
    case CopiedDirectory(mode, entries) =>
      mode == PRIVATE_DIRECTORY_MODE && forall name | name in entries :: ValidName(name) && PrivateTree(entries[name])
  }

  /** Every copy passes the later inspection of the materialized tree. */
  lemma {:induction false} CopyIsPrivate(node: Node)
    requires Safe(node) && WellFormed(node)
    ensures PrivateTree(Copied(node))
  {
    if node.Directory? {
      var entries := node.entries;
      forall name | name in CopiedEntries(entries) ensures ValidName(name) && PrivateTree(CopiedEntries(entries)[name]) {
        CopiedEntriesHold(entries, name);
        var i :| 0 <= i < |entries| && entries[i].name == name;
        CopyIsPrivate(entries[i].node);
      }
    }
  }

  // ---------------------------------------------------------------------------
  // Reading a copy back: same names, same bytes, same executability
  // ---------------------------------------------------------------------------

  /** Where a path of names leads in the source, and in the copy. */
  function Find(node: Node, path: seq<Name>): Option<Node> {
    if path == [] then Some(node)
    else if !node.Directory? then None
    else FindIn(node.entries, path)
  }

  function FindIn(es: seq<Entry>, path: seq<Name>): Option<Node>
    requires path != []
  {
    if es == [] then None
    else if es[|es| - 1].name == path[0] then Find(es[|es| - 1].node, path[1..])
    else FindIn(es[..|es| - 1], path)
  }

  function FindCopy(copy: Copy, path: seq<Name>): Option<Copy> {
    if path == [] then Some(copy)
    else if copy.CopiedDirectory? && path[0] in copy.entries then FindCopy(copy.entries[path[0]], path[1..])
    else None
  }

  predicate SameFile(source: Node, copy: Copy) {
    match source
    case File(_, _, mode, content) =>
      copy.CopiedFile? && copy.content == content && (OwnerExecutable(copy.mode) <==> OwnerExecutable(mode))
    case _ => source.Directory? && copy.CopiedDirectory?
  }

  /** Every path leads to something in the copy exactly when it does in the source, and to the same thing. */
  lemma {:induction false} CopyIsFaithful(node: Node, path: seq<Name>)
    requires Safe(node) && WellFormed(node)
    ensures match Find(node, path)
            case Some(found) => var copy := FindCopy(Copied(node), path); copy.Some? && SameFile(found, copy.value)
            case None => FindCopy(Copied(node), path).None?
    decreases node, 0
  {
    if path != [] && node.Directory? {
      FaithfulEntries(node.entries, path);
    }
  }

  lemma {:induction false} FaithfulEntries(es: seq<Entry>, path: seq<Name>)
    requires SafeEntries(es) && DistinctNames(es) && path != [] && forall i | 0 <= i < |es| :: WellFormed(es[i].node)
    ensures var copies := CopiedEntries(es);
            match FindIn(es, path)
            case Some(found) =>
              path[0] in copies && var copy := FindCopy(copies[path[0]], path[1..]); copy.Some? && SameFile(found, copy.value)
            case None => path[0] in copies ==> FindCopy(copies[path[0]], path[1..]).None?
    decreases es, 1
  {
    if es != [] {
      if es[|es| - 1].name == path[0] {
        CopyIsFaithful(es[|es| - 1].node, path[1..]);
      } else {
        FaithfulEntries(es[..|es| - 1], path);
      }
    }
  }

  // ---------------------------------------------------------------------------
  // The measures are those of the paths that lead somewhere
  // ---------------------------------------------------------------------------

  /** A path as it is spelled, with a separator between each name and the next. */
  function Spelled(path: seq<Name>): seq<byte> {
    if path == [] then [] else if |path| == 1 then path[0] else path[0] + [SLASH] + Spelled(path[1..])
  }

  lemma {:induction false} PathsAreBounded(node: Node, path: seq<Name>)
    requires Find(node, path).Some?
    ensures |path| <= Height(node) && |Spelled(path)| <= Reach(node)
    decreases node, 0
  {
    if path != [] {
      PathsInAreBounded(node.entries, path);
    }
  }

  lemma {:induction false} PathsInAreBounded(es: seq<Entry>, path: seq<Name>)
    requires path != [] && FindIn(es, path).Some?
    ensures |path| <= HeightOf(es) && |Spelled(path)| <= ReachOf(es)
    decreases es, 1
  {
    if es[|es| - 1].name == path[0] {
      PathsAreBounded(es[|es| - 1].node, path[1..]);
    } else {
      PathsInAreBounded(es[..|es| - 1], path);
    }
  }

  /** An entry with a name of its own is where that name leads. */
  lemma {:induction false} FindsEntry(es: seq<Entry>, i: nat, path: seq<Name>)
    requires i < |es| && DistinctNames(es) && path != [] && path[0] == es[i].name
    ensures FindIn(es, path) == Find(es[i].node, path[1..])
  {
    if i < |es| - 1 {
      FindsEntry(es[..|es| - 1], i, path);
    }
  }

  /** The entries that the two measures of a directory come from. */
  lemma {:induction false} LargestEntries(es: seq<Entry>) returns (i: nat, j: nat)
    requires es != []
    ensures i < |es| && ReachOf(es) == Joined(|es[i].name|, Reach(es[i].node))
    ensures j < |es| && HeightOf(es) == 1 + Height(es[j].node)
  {
    var rest := es[..|es| - 1];
    i, j := |es| - 1, |es| - 1;
    if rest != [] {
      var a, b := LargestEntries(rest);
      i := if ReachOf(rest) == ReachOf(es) then a else i;
      j := if HeightOf(rest) == HeightOf(es) then b else j;
    }
  }

  lemma SpelledBelow(name: Name, tail: seq<Name>)
    ensures |Spelled([name] + tail)| == Joined(|name|, |Spelled(tail)|)
  {
    assert ([name] + tail)[1..] == tail;
    assert tail != [] ==> |Spelled(tail)| > 0;
  }

  /** Some path is as long as the measures say, in bytes and in names. */
  lemma {:induction false} LongestPaths(node: Node) returns (longest: seq<Name>, deepest: seq<Name>)
    requires WellFormed(node)
    ensures Find(node, longest).Some? && |Spelled(longest)| == Reach(node)
    ensures Find(node, deepest).Some? && |deepest| == Height(node)
    decreases node
  {
    longest, deepest := [], [];
    if node.Directory? && node.entries != [] {
      var es := node.entries;
      var i, j := LargestEntries(es);
      var far, _ := LongestPaths(es[i].node);
      var _, deep := LongestPaths(es[j].node);
      longest, deepest := [es[i].name] + far, [es[j].name] + deep;
      assert longest[1..] == far && deepest[1..] == deep;
      FindsEntry(es, i, longest);
      FindsEntry(es, j, deepest);
      SpelledBelow(es[i].name, far);
    }
  }

  /** The limits on depth and path length hold of the measures exactly when they hold of every path in the tree. */
  lemma LimitsAreOnPaths(node: Node, depth: nat, bytes: nat)
    requires WellFormed(node)
    ensures Height(node) <= depth && Reach(node) <= bytes
            <==> forall path | Find(node, path).Some? :: |path| <= depth && |Spelled(path)| <= bytes
  {
    forall path | Find(node, path).Some? ensures |path| <= Height(node) && |Spelled(path)| <= Reach(node) {
      PathsAreBounded(node, path);
    }
    var longest, deepest := LongestPaths(node);
  }
}
