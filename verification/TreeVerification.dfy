/** Verifying that a tree holds exactly the files a receipt lists. */
module TreeVerification {
  import opened Wrappers
  import opened Paths
  import opened MemberPaths
  import opened CatalogTree

  /** A file as a receipt lists it; of its content a receipt knows the size and the digest. */
  datatype Listed = Listed(path: string, content: Content)

  ghost predicate ParentOf(parts: Parts, s: string) {
    exists n :: 1 <= n < |parts| && s == Join(parts[..n])
  }

  ghost predicate ParentText(paths: set<string>, s: string) {
    exists p :: p in paths && ParentOf(PathParts(p), s)
  }

  method ParentsOf(parts: Parts) returns (r: set<string>)
    ensures forall s :: s in r <==> ParentOf(parts, s)
  {
    r := {};
    var length := 1;
    while length < |parts|
      invariant 1 <= length
      invariant forall s :: s in r <==> exists n :: 1 <= n < length && n < |parts| && s == Join(parts[..n])
    {
      r := r + {Join(parts[..length])};
      length := length + 1;
    }
  }

  /** `_parent_directories` */
  method ParentDirectories(paths: set<string>) returns (r: set<string>)
    ensures forall s :: s in r <==> ParentText(paths, s)
  {
    r := {};
    var left := paths;
    while left != {}
      invariant left <= paths
      invariant forall s :: s in r <==> ParentText(paths - left, s)
      decreases |left|
    {
      var path :| path in left;
      var parents := ParentsOf(PathParts(path));
      assert paths - (left - {path}) == (paths - left) + {path};
      left := left - {path};
      r := r + parents;
    }
    assert paths - left == paths;
  }

  ghost predicate ExactFiles(t: Tree, files: set<string>) {
    forall s :: Text(t, "", false, s) <==> s in files
  }

  ghost predicate ExactDirectories(t: Tree, files: set<string>) {
    forall s :: Text(t, "", true, s) <==> ParentText(files, s)
  }

  predicate ContentMatches(t: Tree, file: Listed, digest: Content -> string) {
    var kind := KindAt(t, PathParts(file.path));
    kind.IsFile? && |kind.content| == |file.content| && digest(kind.content) == digest(file.content)
  }

  function TextsOf(listed: seq<Listed>): set<string> {
    set i | 0 <= i < |listed| :: listed[i].path
  }

  /** The tree has the listed files, the directories above them, nothing else, and files with the right bytes. */
  ghost predicate Exact(t: Tree, listed: seq<Listed>, digest: Content -> string) {
    && ExactFiles(t, TextsOf(listed))
    && ExactDirectories(t, TextsOf(listed))
    && (forall i | 0 <= i < |listed| :: ContentMatches(t, listed[i], digest))
  }

  /** Comparing the two scans with the two expectations. */
  method ScanMatches(t: Tree, expected: set<string>) returns (ok: bool)
    requires t.Directory? && NormalTree(t)
    ensures ok <==> ExactFiles(t, expected) && ExactDirectories(t, expected)
  {
    var above := ParentDirectories(expected);
    var files, directories := Visit(t, "");
    ok := files == expected && directories == above;
    assert files == expected ==> ExactFiles(t, expected);
    assert directories == above ==> ExactDirectories(t, expected);
  }

  /** The tree checks of `verify_materialized_catalog`. */
  method VerifyTree(t: Tree, listed: seq<Listed>, digest: Content -> string) returns (ok: bool)
    requires t.Directory? && NormalTree(t)
    ensures ok <==> Exact(t, listed, digest)
  {
    ok := ScanMatches(t, TextsOf(listed));
    if !ok {
      return;
    }
    for i := 0 to |listed|
      invariant forall k | 0 <= k < i :: ContentMatches(t, listed[k], digest)
    {
      if !ContentMatches(t, listed[i], digest) {
        return false;
      }
    }
  }

  // ---------------------------------------------------------------------------
  // A tree that holds the listed files
  // ---------------------------------------------------------------------------

  ghost predicate FileAmong(members: seq<Member>, s: string) {
    exists i :: 0 <= i < |members| && members[i].path != [] && s == Join(members[i].path)
  }

  ghost predicate DirectoryAmong(members: seq<Member>, s: string) {
    exists i :: 0 <= i < |members| && ParentOf(members[i].path, s)
  }

  /** The file texts of a tree are those of the members it holds. */
  lemma FilesOfMembers(t: Tree, members: seq<Member>, s: string)
    requires Holds(t, members)
    ensures Text(t, "", false, s) <==> FileAmong(members, s)
  {
    if Text(t, "", false, s) {
      var q: Parts :| q != [] && Is(KindAt(t, q), false) && s == Under("", q);
      var i :| 0 <= i < |members| && members[i].path == q;
    }
    if FileAmong(members, s) {
      var i :| 0 <= i < |members| && members[i].path != [] && s == Join(members[i].path);
      assert Is(KindAt(t, members[i].path), false) && s == Under("", members[i].path);
    }
  }

  lemma DirectoriesOfMembers(t: Tree, members: seq<Member>, s: string)
    requires Holds(t, members)
    ensures Text(t, "", true, s) <==> DirectoryAmong(members, s)
  {
    if Text(t, "", true, s) {
      var q: Parts :| q != [] && Is(KindAt(t, q), true) && s == Under("", q);
      assert Above(q, members);
      var i :| 0 <= i < |members| && Ancestor(q, members[i].path);
      assert q == members[i].path[..|q|];
      assert ParentOf(members[i].path, s);
    }
    if DirectoryAmong(members, s) {
      var i :| 0 <= i < |members| && ParentOf(members[i].path, s);
      var n :| 1 <= n < |members[i].path| && s == Join(members[i].path[..n]);
      var q := members[i].path[..n];
      assert Ancestor(q, members[i].path);
      assert Above(q, members);
      assert Is(KindAt(t, q), true) && s == Under("", q);
    }
  }

  /** Each listed text spells the path the member was written to. */
  predicate Spelled(members: seq<Member>, listed: seq<Listed>) {
    && |members| == |listed|
    && forall i | 0 <= i < |members| ::
         && members[i].path != [] && members[i].content == listed[i].content
         && PathParts(listed[i].path) == members[i].path
         && Join(members[i].path) == listed[i].path
  }

  /** A tree that holds members as they are listed passes verification. */
  lemma SpelledVerifies(t: Tree, members: seq<Member>, listed: seq<Listed>, digest: Content -> string)
    requires Holds(t, members) && Spelled(members, listed)
    ensures Exact(t, listed, digest)
  {
    forall s ensures Text(t, "", false, s) <==> s in TextsOf(listed) {
      FilesOfMembers(t, members, s);
      if s in TextsOf(listed) {
        var i :| 0 <= i < |listed| && s == listed[i].path;
        assert s == Join(members[i].path);
      }
    }
    forall s ensures Text(t, "", true, s) <==> ParentText(TextsOf(listed), s) {
      DirectoriesOfMembers(t, members, s);
      if ParentText(TextsOf(listed), s) {
        var p :| p in TextsOf(listed) && ParentOf(PathParts(p), s);
        var i :| 0 <= i < |listed| && p == listed[i].path;
        assert ParentOf(members[i].path, s);
      }
      if DirectoryAmong(members, s) {
        var i :| 0 <= i < |members| && ParentOf(members[i].path, s);
        assert listed[i].path in TextsOf(listed);
      }
    }
    forall i | 0 <= i < |listed| ensures ContentMatches(t, listed[i], digest) {
      assert KindAt(t, members[i].path) == IsFile(members[i].content);
    }
  }

  /** A listed text that spells none of the written paths is never found. */
  lemma MisspelledFails(t: Tree, members: seq<Member>, listed: seq<Listed>, digest: Content -> string, i: nat)
    requires Holds(t, members) && i < |listed|
    requires forall k | 0 <= k < |members| :: members[k].path != [] && listed[i].path != Join(members[k].path)
    ensures !Exact(t, listed, digest)
  {
    FilesOfMembers(t, members, listed[i].path);
    assert listed[i].path in TextsOf(listed);
  }
}
