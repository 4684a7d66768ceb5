/** Slash-separated paths: splitting, joining and the lexical cleaning of Go's `filepath`. */
module Paths {

  predicate SlashFree(s: string) {
    forall i | 0 <= i < |s| :: s[i] != '/'
  }

  function Split(s: string): (parts: seq<string>)
    ensures parts != []
    ensures forall i | 0 <= i < |parts| :: SlashFree(parts[i])
  {
    if s == [] then [""]
    else if s[0] == '/' then [""] + Split(s[1..])
    else
      var rest := Split(s[1..]);
      [[s[0]] + rest[0]] + rest[1..]
  }

  function Join(parts: seq<string>): string
    requires parts != []
  {
    if |parts| == 1 then parts[0] else parts[0] + "/" + Join(parts[1..])
  }

  lemma {:induction false} JoinSplit(s: string)
    ensures Join(Split(s)) == s
  {
    if s != [] {
      JoinSplit(s[1..]);
      var rest := Split(s[1..]);
      if s[0] == '/' {
        assert ([""] + rest)[1..] == rest;
        assert "" + "/" + s[1..] == s;
      } else {
        var parts := [[s[0]] + rest[0]] + rest[1..];
        assert parts[1..] == rest[1..];
        if |rest| == 1 {
          assert Join(parts) == [s[0]] + rest[0];
        } else {
          assert Join(parts) == [s[0]] + rest[0] + "/" + Join(rest[1..]);
          assert Join(rest) == rest[0] + "/" + Join(rest[1..]);
        }
        assert s == [s[0]] + s[1..];
      }
    }
  }

  lemma {:induction false} SplitAppend(p: string, s: string)
    requires SlashFree(p)
    ensures Split(p + s) == [p + Split(s)[0]] + Split(s)[1..]
  {
    if p == [] {
      assert p + s == s && p + Split(s)[0] == Split(s)[0];
    } else {
      assert (p + s)[1..] == p[1..] + s;
      SplitAppend(p[1..], s);
      assert [p[0]] + (p[1..] + Split(s)[0]) == p + Split(s)[0];
    }
  }

  lemma SplitOne(p: string)
    requires SlashFree(p)
    ensures Split(p) == [p]
  {
    SplitAppend(p, "");
    assert p + "" == p;
  }

  lemma {:induction false} SplitJoin(parts: seq<string>)
    requires parts != [] && forall i | 0 <= i < |parts| :: SlashFree(parts[i])
    ensures Split(Join(parts)) == parts
  {
    if |parts| == 1 {
      SplitOne(parts[0]);
    } else {
      var tail := "/" + Join(parts[1..]);
      SplitJoin(parts[1..]);
      assert tail[1..] == Join(parts[1..]);
      assert Split(tail) == [""] + parts[1..];
      SplitAppend(parts[0], tail);
      assert parts[0] + "/" + Join(parts[1..]) == parts[0] + tail;
      assert parts[0] + "" == parts[0];
    }
  }

  /** Joining splits where the parts do. */
  lemma {:induction false} JoinConcat(a: seq<string>, b: seq<string>)
    requires a != [] && b != []
    ensures Join(a + b) == Join(a) + "/" + Join(b)
  {
    if |a| == 1 {
      assert (a + b)[1..] == b;
    } else {
      assert (a + b)[1..] == a[1..] + b;
      JoinConcat(a[1..], b);
      assert a[0] + "/" + (Join(a[1..]) + "/" + Join(b)) == (a[0] + "/" + Join(a[1..])) + "/" + Join(b);
    }
  }

  // ---------------------------------------------------------------------------
  // filepath.Clean

  function CleanPart(done: seq<string>, part: string, rooted: bool): seq<string> {
    if part == "" || part == "." then done
    else if part != ".." then done + [part]
    else if done != [] && done[|done| - 1] != ".." then done[..|done| - 1]
    else if rooted then done
    else done + [".."]
  }

  function CleanParts(done: seq<string>, parts: seq<string>, rooted: bool): seq<string>
    decreases |parts|
  {
    if parts == [] then done else CleanParts(CleanPart(done, parts[0], rooted), parts[1..], rooted)
  }

  predicate Rooted(path: string) {
    path != [] && path[0] == '/'
  }

  function Clean(path: string): string {
    var parts := CleanParts([], Split(path), Rooted(path));
    if Rooted(path) then (if parts == [] then "/" else "/" + Join(parts))
    else if parts == [] then "." else Join(parts)
  }

  /** `filepath.Join` of two non-empty paths. */
  function JoinPath(a: string, b: string): string {
    Clean(a + "/" + b)
  }

  /** A component that cleaning keeps. */
  predicate NormalPart(p: string) {
    p != "" && p != "." && p != ".." && SlashFree(p)
  }

  predicate NormalParts(parts: seq<string>) {
    forall i | 0 <= i < |parts| :: NormalPart(parts[i])
  }

  predicate ValidRelative(path: string) {
    path != "" && path != "." && !Rooted(path) && Clean(path) == path && path != ".." && !("../" <= path)
  }

  lemma {:induction false} CleanNormalParts(done: seq<string>, parts: seq<string>, rooted: bool)
    requires NormalParts(parts)
    ensures CleanParts(done, parts, rooted) == done + parts
    decreases |parts|
  {
    if parts == [] {
      assert done + parts == done;
    } else {
      assert NormalPart(parts[0]);
      CleanNormalParts(done + [parts[0]], parts[1..], rooted);
      assert done + [parts[0]] + parts[1..] == done + parts;
    }
  }

  /** What cleaning leaves of a relative path: kept components, after any number of leading `..`. */
  ghost predicate Cleaned(done: seq<string>) {
    && (forall i | 0 <= i < |done| :: done[i] != "" && done[i] != "." && SlashFree(done[i]))
    && (forall i, j | 0 <= i < j < |done| && done[j] == ".." :: done[i] == "..")
  }

  lemma {:induction false} CleanPartsCleaned(done: seq<string>, parts: seq<string>)
    requires Cleaned(done) && forall i | 0 <= i < |parts| :: SlashFree(parts[i])
    ensures Cleaned(CleanParts(done, parts, false))
    decreases |parts|
  {
    if parts != [] {
      var next := CleanPart(done, parts[0], false);
      assert Cleaned(next) by {
        if parts[0] == ".." && !(done != [] && done[|done| - 1] != "..") {
          assert forall i | 0 <= i < |done| :: done[i] == "..";
        }
      }
      CleanPartsCleaned(next, parts[1..]);
    }
  }

  /** A path is accepted as relative exactly when all its components are ordinary names. */
  lemma ValidRelativeIsNormal(path: string)
    ensures ValidRelative(path) <==> NormalParts(Split(path))
  {
    JoinSplit(path);
    if NormalParts(Split(path)) {
      var parts := Split(path);
      assert NormalPart(parts[0]);
      CleanNormalParts([], parts, false);
      assert [] + parts == parts;
      FirstPartLeads(parts);
    }
    if ValidRelative(path) {
      var done := CleanParts([], Split(path), false);
      CleanPartsCleaned([], Split(path));
      SplitJoin(done);
      assert done == Split(path);
      if done[0] == ".." {
        FirstPartLeads(done);
      }
      assert done[0] != "..";
      forall i | 0 <= i < |done| ensures NormalPart(done[i]) {
      }
    }
  }

  lemma FirstPartLeads(parts: seq<string>)
    requires parts != []
    ensures parts[0] <= Join(parts)
    ensures parts[0] == ".." ==> Join(parts) == ".." || "../" <= Join(parts)
    ensures NormalPart(parts[0]) ==> Join(parts) != "" && Join(parts) != "." && Join(parts) != ".."
                                     && Join(parts)[0] != '/' && !("../" <= Join(parts))
  {
    var s, p := Join(parts), parts[0];
    if |parts| > 1 {
      assert s == p + "/" + Join(parts[1..]);
      assert s[|p|] == '/';
    }
    if NormalPart(p) {
      assert s[0] == p[0];
      assert |p| == 1 ==> p == [p[0]];
      assert |p| == 2 ==> p == [p[0], p[1]];
      assert |p| >= 2 ==> s[1] == p[1];
      assert |p| >= 3 ==> s[2] == p[2];
    }
  }

  /** A clean absolute path, by components. */
  function Absolute(parts: seq<string>): string
    requires parts != []
  {
    "/" + Join(parts)
  }

  lemma AbsoluteInjective(a: seq<string>, b: seq<string>)
    requires a != [] && b != [] && NormalParts(a) && NormalParts(b) && Absolute(a) == Absolute(b)
    ensures a == b
  {
    assert Absolute(a)[1..] == Join(a) && Absolute(b)[1..] == Join(b);
    SplitJoin(a);
    SplitJoin(b);
  }

  lemma SplitAbsolute(parts: seq<string>)
    requires parts != [] && forall i | 0 <= i < |parts| :: SlashFree(parts[i])
    ensures Split(Absolute(parts)) == [""] + parts
  {
    SplitJoin(parts);
    assert Absolute(parts)[1..] == Join(parts);
  }

  lemma SplitBelow(parts: seq<string>, rest: string)
    requires parts != [] && forall i | 0 <= i < |parts| :: SlashFree(parts[i])
    ensures Split(Absolute(parts) + "/" + rest) == [""] + parts + Split(rest)
  {
    JoinSplit(rest);
    JoinConcat(parts, Split(rest));
    SplitAbsolute(parts + Split(rest));
    assert Absolute(parts) + "/" + rest == Absolute(parts + Split(rest));
    assert [""] + (parts + Split(rest)) == [""] + parts + Split(rest);
  }

  /** Joining a relative path to a clean absolute one appends its components. */
  lemma JoinBelow(target: seq<string>, path: string)
    requires target != [] && NormalParts(target) && ValidRelative(path)
    ensures NormalParts(Split(path)) && JoinPath(Absolute(target), path) == Absolute(target + Split(path))
  {
    ValidRelativeIsNormal(path);
    JoinSplit(path);
    var parts := target + Split(path);
    JoinConcat(target, Split(path));
    var s := Absolute(target) + "/" + path;
    assert s == "/" + Join(parts);
    assert s[1..] == Join(parts);
    SplitJoin(parts);
    assert Split(s) == [""] + parts;
    assert ([""] + parts)[1..] == parts;
    CleanNormalParts([], parts, true);
    assert [] + parts == parts;
    assert CleanParts([], Split(s), true) == parts;
  }
}
