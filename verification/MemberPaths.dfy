/** Relative member paths: their normalization and the check that no member is an ancestor of another. */
module MemberPaths {
  import opened Wrappers
  import opened Counting
  import opened Paths
  import opened TupleOrder

  type Parts = seq<string>

  /** `PurePosixPath(...).parts` of a relative path: empty components and dots disappear. */
  function KeptParts(components: seq<string>): (parts: Parts)
    ensures forall i | 0 <= i < |parts| :: parts[i] in components && parts[i] != "" && parts[i] != "."
  {
    if components == [] then []
    else if components[0] == "" || components[0] == "." then KeptParts(components[1..])
    else [components[0]] + KeptParts(components[1..])
  }

  function PathParts(path: string): Parts {
    KeptParts(Split(path))
  }

  /** `as_posix()` */
  function Posix(parts: Parts): string {
    if parts == [] then "." else Join(parts)
  }

  /** `validate_relative_path` */
  function ValidateRelativePath(path: string): Option<string> {
    if Rooted(path) || path == "" || ".." in PathParts(path) then None else Some(Posix(PathParts(path)))
  }

  lemma {:induction false} KeptNormal(parts: seq<string>)
    requires NormalParts(parts)
    ensures KeptParts(parts) == parts
  {
    if parts != [] {
      assert NormalPart(parts[0]);
      KeptNormal(parts[1..]);
    }
  }

  lemma PartsOfJoin(parts: seq<string>)
    requires parts != [] && NormalParts(parts)
    ensures PathParts(Join(parts)) == parts
  {
    SplitJoin(parts);
    KeptNormal(parts);
  }

  lemma {:induction false} KeptKeeps(components: seq<string>, p: string)
    requires p != "" && p != "."
    ensures p in KeptParts(components) <==> p in components
  {
    if components != [] {
      KeptKeeps(components[1..], p);
    }
  }

  /** Refused are exactly the empty path, absolute paths and those that go up, and every path of ordinary names is
      accepted as it is. */
  lemma RefusedPaths(path: string)
    ensures ValidateRelativePath(path).None? <==> path == "" || path[0] == '/' || ".." in Split(path)
    ensures NormalParts(Split(path)) ==> ValidateRelativePath(path) == Some(path)
  {
    KeptKeeps(Split(path), "..");
    if NormalParts(Split(path)) {
      KeptNormal(Split(path));
      JoinSplit(path);
      assert NormalPart(Split(path)[0]);
    }
  }

  /** An accepted path is a single dot or joins ordinary names, and is accepted again as it is. */
  lemma AcceptedPathIsNormal(path: string)
    requires ValidateRelativePath(path).Some?
    ensures NormalParts(PathParts(path))
    ensures var s := ValidateRelativePath(path).value;
            && ValidateRelativePath(s) == Some(s)
            && PathParts(s) == PathParts(path)
            && (s == "." || NormalParts(Split(s)))
            && (s == "." <==> PathParts(s) == [])
  {
    var parts := PathParts(path);
    var s := Posix(parts);
    assert NormalParts(parts);
    if parts == [] {
      SplitOne(".");
      assert PathParts(".") == [];
    } else {
      PartsOfJoin(parts);
      SplitJoin(parts);
      FirstPartLeads(parts);
      assert NormalPart(parts[0]);
    }
  }

  // ---------------------------------------------------------------------------
  // The sorted pair check
  // ---------------------------------------------------------------------------

  predicate Ancestor(a: Parts, b: Parts) {
    a <= b && a != b
  }

  /** No path twice, and none above another. */
  predicate PrefixFree(paths: seq<Parts>) {
    forall i, j | 0 <= i < |paths| && 0 <= j < |paths| && i != j :: !(paths[i] <= paths[j])
  }

  predicate Distinct(paths: seq<Parts>) {
    forall i, j | 0 <= i < j < |paths| :: paths[i] != paths[j]
  }

  function Insert(x: Parts, s: seq<Parts>): seq<Parts> {
    if s == [] || !TupleLess(s[0], x) then [x] + s else [s[0]] + Insert(x, s[1..])
  }

  /** `sorted` */
  function SortPaths(s: seq<Parts>): seq<Parts> {
    if s == [] then [] else Insert(s[0], SortPaths(s[1..]))
  }

  predicate Ordered(s: seq<Parts>) {
    forall i, j | 0 <= i < j < |s| :: !TupleLess(s[j], s[i])
  }

  lemma {:induction false} InsertKeepsOrder(x: Parts, s: seq<Parts>)
    requires Ordered(s)
    ensures Ordered(Insert(x, s)) && multiset(Insert(x, s)) == multiset(s) + multiset{x}
  {
    if s == [] || !TupleLess(s[0], x) {
      forall j | 0 <= j < |s| ensures !TupleLess(s[j], x) {
        if j > 0 {
          TupleTransitive(x, s[0], s[j]);
        }
      }
    } else {
      var rest := Insert(x, s[1..]);
      InsertKeepsOrder(x, s[1..]);
      assert s == [s[0]] + s[1..];
      assert multiset(rest) == multiset(s[1..]) + multiset{x};
      TupleAsymmetric(s[0], x);
      forall j | 0 <= j < |rest| ensures !TupleLess(rest[j], s[0]) {
        assert rest[j] in multiset(rest);
        assert rest[j] == x || rest[j] in s[1..];
      }
    }
  }

  lemma {:induction false} SortOrders(s: seq<Parts>)
    ensures Ordered(SortPaths(s)) && multiset(SortPaths(s)) == multiset(s)
  {
    if s != [] {
      SortOrders(s[1..]);
      InsertKeepsOrder(s[0], SortPaths(s[1..]));
      assert s == [s[0]] + s[1..];
    }
  }

  function Values(s: seq<Parts>): set<Parts> {
    set p | p in s
  }

  lemma {:induction false} DistinctCounts(s: seq<Parts>)
    ensures Distinct(s) <==> forall p | p in s :: multiset(s)[p] == 1
  {
    if s != [] {
      var n := |s| - 1;
      DistinctCounts(s[..n]);
      assert s == s[..n] + [s[n]];
      assert multiset(s) == multiset(s[..n]) + multiset{s[n]};
      if Distinct(s) {
        assert s[n] !in s[..n];
        assert multiset(s[..n])[s[n]] == 0;
      }
      if forall p | p in s :: multiset(s)[p] == 1 {
        assert multiset(s)[s[n]] == 1;
        assert s[n] !in multiset(s[..n]);
        assert forall p | p in s[..n] :: p in s && p != s[n] && multiset(s[..n])[p] == multiset(s)[p];
      }
    }
  }

  /** Being prefix-free does not depend on the order of a list. */
  lemma PrefixFreeIgnoresOrder(a: seq<Parts>, b: seq<Parts>)
    requires multiset(a) == multiset(b)
    ensures PrefixFree(a) <==> Distinct(b) && forall p, q | p in b && q in b :: !Ancestor(p, q)
  {
    DistinctCounts(a);
    DistinctCounts(b);
    assert forall p :: p in a <==> p in multiset(a);
    assert forall p :: p in b <==> p in multiset(b);
    assert Distinct(a) <==> Distinct(b);
    if PrefixFree(a) {
      forall p, q | p in b && q in b ensures !Ancestor(p, q) {
        assert p in a && q in a;
      }
      assert Distinct(a);
    }
    if Distinct(b) && forall p, q | p in b && q in b :: !Ancestor(p, q) {
      forall i, j | 0 <= i < |a| && 0 <= j < |a| && i != j ensures !(a[i] <= a[j]) {
        assert a[i] in b && a[j] in b;
        assert a[i] != a[j];
      }
    }
  }

  /** `validate_member_path_set`: comparing each path with the later ones in sorted order finds every collision. */
  method ValidateMemberPathSet(paths: seq<Parts>) returns (ok: bool)
    ensures ok <==> PrefixFree(paths)
  {
    var ordered := SortPaths(paths);
    SortOrders(paths);
    PrefixFreeIgnoresOrder(paths, ordered);
    ValuesCount(ordered, Values(ordered));
    if |Values(ordered)| != |ordered| {
      return false;
    }
    for i := 0 to |ordered|
      invariant forall p, q | 0 <= p < i && p < q < |ordered| :: !Ancestor(ordered[p], ordered[q])
    {
      for j := i + 1 to |ordered|
        invariant forall q | i < q < j :: !Ancestor(ordered[i], ordered[q])
      {
        if |ordered[j]| > |ordered[i]| && ordered[j][..|ordered[i]|] == ordered[i] {
          assert Ancestor(ordered[i], ordered[j]);
          return false;
        }
      }
    }
    LaterIsEnough(ordered);
    ok := true;
  }

  /** In sorted order an ancestor comes before its descendants. */
  lemma LaterIsEnough(ordered: seq<Parts>)
    requires Ordered(ordered)
    requires forall p, q | 0 <= p < q < |ordered| :: !Ancestor(ordered[p], ordered[q])
    ensures forall p, q | p in ordered && q in ordered :: !Ancestor(p, q)
  {
    forall i, j | 0 <= i < |ordered| && 0 <= j < |ordered| ensures !Ancestor(ordered[i], ordered[j]) {
      if j < i && Ancestor(ordered[i], ordered[j]) {
        PrefixComesFirst(ordered[i], ordered[j]);
      }
    }
  }
}
