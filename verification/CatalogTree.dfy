/** A catalog's files and directories: writing members into a tree, and scanning the tree back. */
module CatalogTree {
  import opened Wrappers
  import opened Octets
  import opened Paths
  import opened MemberPaths

  type Content = Bytes

  datatype Tree = File(content: Content) | Directory(entries: map<string, Tree>)

  datatype Kind = Missing | IsFile(content: Content) | IsDirectory

  datatype Member = Member(path: Parts, content: Content)

  const EMPTY := Directory(map[])

  /** What a path leads to. */
  function KindAt(t: Tree, q: Parts): Kind {
    if q == [] then (if t.File? then IsFile(t.content) else IsDirectory)
    else if t.Directory? && q[0] in t.entries then KindAt(t.entries[q[0]], q[1..])
    else Missing
  }

  /** `_write_file_at`: directories are created on the way or must already be directories; the file must be new. */
  function Write(t: Tree, p: Parts, content: Content): Option<Tree>
    decreases |p|
  {
    if p == [] || t.File? then None
    else if |p| == 1 then
      if p[0] in t.entries then None else Some(Directory(t.entries[p[0] := File(content)]))
    else
      var below := if p[0] in t.entries then t.entries[p[0]] else EMPTY;
      match Write(below, p[1..], content)
      case Some(child) => Some(Directory(t.entries[p[0] := child]))
      case None => None
  }

  function WriteAll(t: Tree, members: seq<Member>): Option<Tree>
    decreases |members|
  {
    if members == [] then Some(t) else
    match WriteAll(t, members[..|members| - 1])
    case Some(u) => Write(u, members[|members| - 1].path, members[|members| - 1].content)
    case None => None
  }

  /** A new file at `p` does not collide with what is there. */
  predicate Writable(t: Tree, p: Parts) {
    && p != []
    && KindAt(t, p) == Missing
    && forall n | 0 <= n < |p| :: !KindAt(t, p[..n]).IsFile?
  }

  lemma {:induction false} WriteSucceeds(t: Tree, p: Parts, content: Content)
    ensures Write(t, p, content).Some? <==> Writable(t, p)
    decreases |p|
  {
    if p != [] {
      assert KindAt(t, p[..0]) == if t.File? then IsFile(t.content) else IsDirectory;
      if t.Directory? {
        if |p| == 1 {
          assert p[1..] == [];
          assert p[0] in t.entries ==> KindAt(t, p) == KindAt(t.entries[p[0]], []);
          assert forall n | 0 <= n < |p| :: !KindAt(t, p[..n]).IsFile?;
        } else {
          var below := if p[0] in t.entries then t.entries[p[0]] else EMPTY;
          WriteSucceeds(below, p[1..], content);
          BelowWritable(t, p);
        }
      }
    }
  }

  lemma BelowWritable(t: Tree, p: Parts)
    requires t.Directory? && |p| > 1
    ensures Writable(t, p) <==> Writable(if p[0] in t.entries then t.entries[p[0]] else EMPTY, p[1..])
  {
    var below := if p[0] in t.entries then t.entries[p[0]] else EMPTY;
    forall n | 1 <= n <= |p|
      ensures KindAt(t, p[..n]).IsFile? <==> KindAt(below, p[1..][..n - 1]).IsFile?
    {
      assert p[..n][0] == p[0] && p[..n][1..] == p[1..][..n - 1];
    }
    if Writable(below, p[1..]) {
      forall n | 0 <= n < |p| ensures !KindAt(t, p[..n]).IsFile? {
        if n > 0 {
          assert !KindAt(below, p[1..][..n - 1]).IsFile?;
        }
      }
    }
    if Writable(t, p) {
      forall m | 0 <= m < |p[1..]| ensures !KindAt(below, p[1..][..m]).IsFile? {
        assert !KindAt(t, p[..m + 1]).IsFile?;
      }
    }
  }

  /** A write adds one file and the directories above it, and changes nothing else. */
  lemma {:induction false} WriteEffect(t: Tree, p: Parts, content: Content, q: Parts)
    requires Write(t, p, content).Some?
    ensures KindAt(Write(t, p, content).value, q) ==
            if q == p then IsFile(content) else if Ancestor(q, p) then IsDirectory else KindAt(t, q)
    decreases |p|
  {
    if |p| > 1 && q != [] && q[0] == p[0] {
      var below := if p[0] in t.entries then t.entries[p[0]] else EMPTY;
      WriteEffect(below, p[1..], content, q[1..]);
      assert q == [q[0]] + q[1..] && p == [p[0]] + p[1..];
      assert q[1..] <= p[1..] <==> q <= p;
    }
  }

  /** The tree holds exactly these files, and as directories exactly the root and what lies above a file. */
  ghost predicate Holds(t: Tree, members: seq<Member>) {
    && (forall i | 0 <= i < |members| :: KindAt(t, members[i].path) == IsFile(members[i].content))
    && (forall q :: KindAt(t, q).IsFile? ==> exists i :: 0 <= i < |members| && members[i].path == q)
    && (forall q :: KindAt(t, q) == IsDirectory <==> q == [] || Above(q, members))
  }

  ghost predicate Above(q: Parts, members: seq<Member>) {
    exists i :: 0 <= i < |members| && Ancestor(q, members[i].path)
  }

  function PathsOf(members: seq<Member>): seq<Parts> {
    seq(|members|, i requires 0 <= i < |members| => members[i].path)
  }

  predicate Separate(members: seq<Member>) {
    PrefixFree(PathsOf(members)) && forall i | 0 <= i < |members| :: members[i].path != []
  }

  ghost predicate Related(members: seq<Member>, p: Parts) {
    exists i :: 0 <= i < |members| && (members[i].path <= p || p <= members[i].path)
  }

  lemma RelatedBlocks(t: Tree, members: seq<Member>, p: Parts)
    requires Holds(t, members) && Related(members, p)
    ensures !Writable(t, p)
  {
    var i :| 0 <= i < |members| && (members[i].path <= p || p <= members[i].path);
    var other := members[i].path;
    assert KindAt(t, other).IsFile?;
    if other != p {
      if other <= p {
        assert p[..|other|] == other;
      } else {
        assert Ancestor(p, other);
        assert Above(p, members);
      }
    }
  }

  lemma BlockedIsRelated(t: Tree, members: seq<Member>, p: Parts)
    requires Holds(t, members) && p != [] && !Writable(t, p)
    ensures Related(members, p)
  {
    if KindAt(t, p) != Missing {
      if KindAt(t, p).IsFile? {
        var i :| 0 <= i < |members| && members[i].path == p;
        assert members[i].path <= p;
      } else {
        var i :| 0 <= i < |members| && Ancestor(p, members[i].path);
        assert p <= members[i].path;
      }
    } else {
      var n :| 0 <= n < |p| && KindAt(t, p[..n]).IsFile?;
      var i :| 0 <= i < |members| && members[i].path == p[..n];
      assert members[i].path <= p;
    }
  }

  /** In a tree that holds some members, a new path is writable exactly when it is unrelated to all of theirs. */
  lemma WritableBeside(t: Tree, members: seq<Member>, p: Parts)
    requires Holds(t, members)
    ensures Writable(t, p) <==> p != [] && !Related(members, p)
  {
    if Related(members, p) {
      RelatedBlocks(t, members, p);
    } else if p != [] && !Writable(t, p) {
      BlockedIsRelated(t, members, p);
    }
  }

  lemma WriteHolds(t: Tree, members: seq<Member>, m: Member)
    requires Holds(t, members) && Writable(t, m.path)
    ensures Write(t, m.path, m.content).Some?
    ensures Holds(Write(t, m.path, m.content).value, members + [m])
  {
    WriteSucceeds(t, m.path, m.content);
    WritableBeside(t, members, m.path);
    assert !Above(m.path, members);
    var u := Write(t, m.path, m.content).value;
    var all := members + [m];
    forall q ensures KindAt(u, q) == if q == m.path then IsFile(m.content) else if Ancestor(q, m.path) then IsDirectory else KindAt(t, q) {
      WriteEffect(t, m.path, m.content, q);
    }
    forall i | 0 <= i < |all| ensures KindAt(u, all[i].path) == IsFile(all[i].content) {
      if i < |members| {
        assert all[i] == members[i];
      }
    }
    forall q | KindAt(u, q).IsFile? ensures exists i :: 0 <= i < |all| && all[i].path == q {
      if q == m.path {
        assert all[|members|].path == q;
      } else {
        var i :| 0 <= i < |members| && members[i].path == q;
        assert all[i].path == q;
      }
    }
    forall q ensures KindAt(u, q) == IsDirectory <==> q == [] || Above(q, all) {
      AboveOneMore(q, members, m);
    }
  }

  lemma AboveOneMore(q: Parts, members: seq<Member>, m: Member)
    ensures Above(q, members + [m]) <==> Above(q, members) || Ancestor(q, m.path)
  {
    var all := members + [m];
    if Above(q, members) {
      var i :| 0 <= i < |members| && Ancestor(q, members[i].path);
      assert Ancestor(q, all[i].path);
    }
    if Ancestor(q, m.path) {
      assert Ancestor(q, all[|members|].path);
    }
  }

  lemma SeparateOneMore(members: seq<Member>, m: Member)
    ensures Separate(members + [m]) <==>
            && Separate(members) && m.path != []
            && !Related(members, m.path)
  {
    var all := members + [m];
    var paths := PathsOf(all);
    assert forall i | 0 <= i < |members| :: all[i] == members[i] && paths[i] == PathsOf(members)[i];
    assert all[|members|] == m && paths[|members|] == m.path;
    if Separate(all) {
      forall i | 0 <= i < |members| ensures members[i].path != [] && !(members[i].path <= m.path) && !(m.path <= members[i].path) {
        assert all[i].path != [];
        assert !(paths[i] <= paths[|members|]) && !(paths[|members|] <= paths[i]);
      }
      forall i, j | 0 <= i < |members| && 0 <= j < |members| && i != j ensures !(PathsOf(members)[i] <= PathsOf(members)[j]) {
        assert !(paths[i] <= paths[j]);
      }
    }
  }

  /** Writing members one after the other, in whatever order they come, meets no collision exactly when no path
      repeats or lies above another; and then the tree holds just those members. */
  lemma {:induction false} WritesAreExact(members: seq<Member>)
    ensures WriteAll(EMPTY, members).Some? <==> Separate(members)
    ensures Separate(members) ==> Holds(WriteAll(EMPTY, members).value, members)
  {
    if members == [] {
      assert forall q :: q != [] ==> KindAt(EMPTY, q) == Missing;
      assert forall q :: !Above(q, members);
    } else {
      var n := |members| - 1;
      var m := members[n];
      assert members == members[..n] + [m];
      WritesAreExact(members[..n]);
      SeparateOneMore(members[..n], m);
      if Separate(members[..n]) {
        var t := WriteAll(EMPTY, members[..n]).value;
        WritableBeside(t, members[..n], m.path);
        WriteSucceeds(t, m.path, m.content);
        if Writable(t, m.path) {
          WriteHolds(t, members[..n], m);
        }
      }
    }
  }

  // ---------------------------------------------------------------------------
  // Scanning
  // ---------------------------------------------------------------------------

  /** What a file system guarantees of names. */
  predicate NormalTree(t: Tree) {
    t.Directory? ==> forall name | name in t.entries :: NormalPart(name) && NormalTree(t.entries[name])
  }

  function Under(prefix: string, q: Parts): string
    requires q != []
  {
    if prefix == "" then Join(q) else prefix + "/" + Join(q)
  }

  predicate Is(kind: Kind, directory: bool) {
    if directory then kind == IsDirectory else kind.IsFile?
  }

  /** `s` is the text of a file, or of a directory, somewhere below `t`; in the second form below one entry. */
  ghost predicate Text(t: Tree, prefix: string, directory: bool, s: string) {
    exists q: Parts :: q != [] && Is(KindAt(t, q), directory) && s == Under(prefix, q)
  }

  ghost predicate TextVia(t: Tree, name: string, prefix: string, directory: bool, s: string) {
    exists q: Parts :: q != [] && q[0] == name && Is(KindAt(t, q), directory) && s == Under(prefix, q)
  }

  lemma UnderBelow(prefix: string, name: string, q: Parts)
    requires q != [] && name != ""
    ensures Under(prefix, [name] + q) == Under(Under(prefix, [name]), q)
  {
    assert ([name] + q)[1..] == q;
    assert Join([name] + q) == name + "/" + Join(q);
    if prefix != "" {
      assert prefix + "/" + (name + "/" + Join(q)) == prefix + "/" + name + "/" + Join(q);
    }
  }

  predicate TextOfEntry(t: Tree, name: string, prefix: string, directory: bool, s: string)
    requires t.Directory? && name in t.entries
  {
    Is(KindAt(t.entries[name], []), directory) && s == Under(prefix, [name])
  }

  lemma KindBelow(t: Tree, name: string, q: Parts)
    requires t.Directory? && name in t.entries
    ensures KindAt(t, [name] + q) == KindAt(t.entries[name], q)
  {
    assert ([name] + q)[1..] == q;
  }

  /** The texts below one entry: its own, and those of the subtree it leads to. */
  lemma TextsViaEntry(t: Tree, name: string, prefix: string, directory: bool, s: string)
    requires t.Directory? && name in t.entries && name != ""
    ensures TextVia(t, name, prefix, directory, s) <==>
            TextOfEntry(t, name, prefix, directory, s) || Text(t.entries[name], Under(prefix, [name]), directory, s)
  {
    var below := t.entries[name];
    KindBelow(t, name, []);
    assert [name] + [] == [name];
    if TextVia(t, name, prefix, directory, s) {
      var q: Parts :| q != [] && q[0] == name && Is(KindAt(t, q), directory) && s == Under(prefix, q);
      var rest := q[1..];
      assert q == [name] + rest;
      KindBelow(t, name, rest);
      if rest != [] {
        UnderBelow(prefix, name, rest);
        assert Is(KindAt(below, rest), directory);
      }
    }
    if Text(below, Under(prefix, [name]), directory, s) {
      var rest: Parts :| rest != [] && Is(KindAt(below, rest), directory) && s == Under(Under(prefix, [name]), rest);
      var q := [name] + rest;
      KindBelow(t, name, rest);
      UnderBelow(prefix, name, rest);
      assert q[0] == name && Is(KindAt(t, q), directory) && s == Under(prefix, q);
    }
    if TextOfEntry(t, name, prefix, directory, s) {
      assert [name][0] == name && Is(KindAt(t, [name]), directory);
    }
  }

  lemma TextNeedsEntry(t: Tree, prefix: string, directory: bool, s: string)
    requires t.Directory?
    ensures Text(t, prefix, directory, s) <==> exists name :: name in t.entries && TextVia(t, name, prefix, directory, s)
  {
    if Text(t, prefix, directory, s) {
      var q: Parts :| q != [] && Is(KindAt(t, q), directory) && s == Under(prefix, q);
      assert q[0] in t.entries;
      assert TextVia(t, q[0], prefix, directory, s);
    }
  }

  /** `visit`: collects the texts of all files and all directories, in whatever order the names come. */
  method Visit(t: Tree, prefix: string) returns (files: set<string>, directories: set<string>)
    requires t.Directory? && NormalTree(t)
    ensures forall s :: s in files <==> Text(t, prefix, false, s)
    ensures forall s :: s in directories <==> Text(t, prefix, true, s)
    decreases t, 1
  {
    files, directories := {}, {};
    var names := t.entries.Keys;
    ghost var done: set<string> := {};
    while names != {}
      invariant names <= t.entries.Keys && done == t.entries.Keys - names
      invariant forall s :: s in files <==> exists name :: name in done && TextVia(t, name, prefix, false, s)
      invariant forall s :: s in directories <==> exists name :: name in done && TextVia(t, name, prefix, true, s)
      decreases |names|
    {
      var name :| name in names;
      var f, d := VisitEntry(t, name, prefix);
      files, directories := files + f, directories + d;
      names := names - {name};
      done := done + {name};
    }
    forall s, directory {
      TextNeedsEntry(t, prefix, directory, s);
    }
  }

  /** One name of a directory: a file adds its text, a directory its own text and all that lie below it. */
  method VisitEntry(t: Tree, name: string, prefix: string) returns (files: set<string>, directories: set<string>)
    requires t.Directory? && NormalTree(t) && name in t.entries
    ensures forall s :: s in files <==> TextVia(t, name, prefix, false, s)
    ensures forall s :: s in directories <==> TextVia(t, name, prefix, true, s)
    decreases t, 0
  {
    var relative := Under(prefix, [name]);
    var below := t.entries[name];
    forall s, directory {
      TextsViaEntry(t, name, prefix, directory, s);
    }
    if below.Directory? {
      files, directories := Visit(below, relative);
      directories := directories + {relative};
    } else {
      files, directories := {relative}, {};
      assert forall s, directory :: !Text(below, relative, directory, s);
    }
  }

  lemma {:induction false} WriteKeepsNormal(t: Tree, p: Parts, content: Content)
    requires NormalTree(t) && NormalParts(p) && Write(t, p, content).Some?
    ensures Write(t, p, content).value.Directory? && NormalTree(Write(t, p, content).value)
    decreases |p|
  {
    assert NormalPart(p[0]);
    if |p| > 1 {
      WriteKeepsNormal(if p[0] in t.entries then t.entries[p[0]] else EMPTY, p[1..], content);
    }
  }

  lemma {:induction false} WritesKeepNormal(members: seq<Member>)
    requires WriteAll(EMPTY, members).Some? && forall i | 0 <= i < |members| :: NormalParts(members[i].path)
    ensures WriteAll(EMPTY, members).value.Directory? && NormalTree(WriteAll(EMPTY, members).value)
  {
    if members != [] {
      var n := |members| - 1;
      WritesKeepNormal(members[..n]);
      WriteKeepsNormal(WriteAll(EMPTY, members[..n]).value, members[n].path, members[n].content);
    }
  }
}
