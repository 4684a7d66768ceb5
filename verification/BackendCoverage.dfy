/** Selecting independent backend implementations and deriving the release coverage of a capability. */
module BackendCoverage {
  import opened Wrappers
  import opened Counting
  import opened KeyOrder
  import opened TupleOrder

  datatype Implementation = Implementation(tool: string, vendor: string, family: string, deployment: string)

  datatype Contract = Contract(minimum: nat, requiredVendors: set<string>, requiredTools: set<string>)

  function Effective(c: Contract): nat {
    var m := if c.minimum >= |c.requiredVendors| then c.minimum else |c.requiredVendors|;
    if m >= |c.requiredTools| then m else |c.requiredTools|
  }

  function Elements(s: seq<Implementation>): set<Implementation> {
    set x | x in s
  }

  function Tools(s: seq<Implementation>): set<string> {
    set i | 0 <= i < |s| :: s[i].tool
  }

  function Vendors(s: seq<Implementation>): set<string> {
    set i | 0 <= i < |s| :: s[i].vendor
  }

  function Families(s: seq<Implementation>): (r: seq<string>)
    ensures |r| == |s| && forall i | 0 <= i < |s| :: r[i] == s[i].family
  {
    seq(|s|, i requires 0 <= i < |s| => s[i].family)
  }

  function Deployments(s: seq<Implementation>): (r: seq<string>)
    ensures |r| == |s| && forall i | 0 <= i < |s| :: r[i] == s[i].deployment
  {
    seq(|s|, i requires 0 <= i < |s| => s[i].deployment)
  }

  function Values(list: seq<string>): set<string> {
    set x | x in list
  }

  /** The test of the subset search: as many families and deployments as members. */
  predicate Independent(s: seq<Implementation>) {
    |Values(Families(s))| == |s| && |Values(Deployments(s))| == |s|
  }

  predicate Covers(s: seq<Implementation>, c: Contract) {
    |s| >= Effective(c) && c.requiredTools <= Tools(s) && c.requiredVendors <= Vendors(s)
  }

  // ---------------------------------------------------------------------------
  // Sorting by tool

  function Insert(x: Implementation, s: seq<Implementation>): seq<Implementation> {
    if s == [] || ScalarLess(x.tool, s[0].tool) then [x] + s else [s[0]] + Insert(x, s[1..])
  }

  function SortByTool(s: seq<Implementation>): seq<Implementation> {
    if s == [] then [] else Insert(s[0], SortByTool(s[1..]))
  }

  ghost predicate Sorted(s: seq<Implementation>) {
    forall i, j | 0 <= i < j < |s| :: ScalarLess(s[i].tool, s[j].tool)
  }

  predicate DistinctTools(s: seq<Implementation>) {
    forall i, j | 0 <= i < j < |s| :: s[i].tool != s[j].tool
  }

  lemma {:induction false} InsertSorted(x: Implementation, s: seq<Implementation>)
    requires Sorted(s) && forall i | 0 <= i < |s| :: s[i].tool != x.tool
    ensures Sorted(Insert(x, s)) && Elements(Insert(x, s)) == {x} + Elements(s)
  {
    if s == [] {
      assert [x] + s == [x];
    } else if ScalarLess(x.tool, s[0].tool) {
      forall i | 0 <= i < |s| ensures ScalarLess(x.tool, s[i].tool) {
        if i > 0 { ScalarTransitive(x.tool, s[0].tool, s[i].tool); }
      }
      assert Elements([x] + s) == {x} + Elements(s);
    } else {
      var r := Insert(x, s[1..]);
      InsertSorted(x, s[1..]);
      ScalarTrichotomy(x.tool, s[0].tool);
      forall i | 0 <= i < |r| ensures ScalarLess(s[0].tool, r[i].tool) {
        assert r[i] in Elements(r);
      }
      assert s == [s[0]] + s[1..];
      assert Elements([s[0]] + r) == {s[0]} + Elements(r);
      assert Elements(s) == {s[0]} + Elements(s[1..]);
    }
  }

  lemma {:induction false} SortIsSorted(s: seq<Implementation>)
    requires DistinctTools(s)
    ensures Sorted(SortByTool(s)) && Elements(SortByTool(s)) == Elements(s)
  {
    if s != [] {
      SortIsSorted(s[1..]);
      var r := SortByTool(s[1..]);
      forall i | 0 <= i < |r| ensures r[i].tool != s[0].tool {
        assert r[i] in Elements(s[1..]);
      }
      InsertSorted(s[0], r);
      assert s == [s[0]] + s[1..];
    }
  }

  lemma SortedHead(s: seq<Implementation>, x: Implementation)
    requires Sorted(s) && s != [] && x in s
    ensures x == s[0] || ScalarLess(s[0].tool, x.tool)
  {
  }

  /** A set with distinct tools has one listing in tool order. */
  lemma {:induction false} SortedUnique(a: seq<Implementation>, b: seq<Implementation>)
    requires Sorted(a) && Sorted(b) && Elements(a) == Elements(b)
    ensures a == b
  {
    assert a != [] ==> a[0] in Elements(b);
    assert b != [] ==> b[0] in Elements(a);
    if a != [] && b != [] {
      SortedHead(a, b[0]);
      SortedHead(b, a[0]);
      ScalarTrichotomy(a[0].tool, b[0].tool);
      assert a[0] == b[0];
      SortedTail(a);
      SortedTail(b);
      SortedUnique(a[1..], b[1..]);
      assert a == [a[0]] + a[1..] && b == [b[0]] + b[1..];
    }
  }

  lemma SortedTail(s: seq<Implementation>)
    requires Sorted(s) && s != []
    ensures Sorted(s[1..]) && Elements(s[1..]) == Elements(s) - {s[0]}
  {
    assert forall i | 0 < i < |s| :: s[i].tool != s[0].tool by {
      forall i | 0 < i < |s| ensures s[i].tool != s[0].tool { ScalarTrichotomy(s[0].tool, s[i].tool); }
    }
    assert s == [s[0]] + s[1..];
  }

  // ---------------------------------------------------------------------------
  // Combinations

  function PrependAll(x: Implementation, lists: seq<seq<Implementation>>): (r: seq<seq<Implementation>>)
    ensures |r| == |lists| && forall i | 0 <= i < |r| :: r[i] == [x] + lists[i]
  {
    seq(|lists|, i requires 0 <= i < |lists| => [x] + lists[i])
  }

  /** `itertools.combinations` */
  function Combinations(s: seq<Implementation>, size: nat): seq<seq<Implementation>> {
    if size == 0 then [[]]
    else if s == [] then []
    else PrependAll(s[0], Combinations(s[1..], size - 1)) + Combinations(s[1..], size)
  }

  lemma {:induction false} CombinationsSound(s: seq<Implementation>, size: nat, x: seq<Implementation>)
    requires Sorted(s) && x in Combinations(s, size)
    ensures |x| == size && Sorted(x) && Elements(x) <= Elements(s)
  {
    if size > 0 {
      SortedTail(s);
      var shorter, left := Combinations(s[1..], size - 1), Combinations(s[1..], size);
      if x in left {
        CombinationsSound(s[1..], size, x);
      } else {
        var i :| 0 <= i < |shorter| && PrependAll(s[0], shorter)[i] == x;
        assert shorter[i] in shorter;
        CombinationsSound(s[1..], size - 1, shorter[i]);
        PrependSound(s, shorter[i]);
      }
    }
  }

  lemma PrependSound(s: seq<Implementation>, y: seq<Implementation>)
    requires s != [] && Sorted(s) && Sorted(y) && Elements(y) <= Elements(s[1..])
    ensures Sorted([s[0]] + y) && Elements([s[0]] + y) <= Elements(s)
  {
    forall j | 0 <= j < |y| ensures ScalarLess(s[0].tool, y[j].tool) {
      assert y[j] in Elements(y);
      SortedHead(s, y[j]);
    }
    assert Elements([s[0]] + y) == {s[0]} + Elements(y);
  }

  lemma PrependHas(head: Implementation, tails: seq<seq<Implementation>>, x: seq<Implementation>)
    requires x != [] && x[0] == head && x[1..] in tails
    ensures x in PrependAll(head, tails)
  {
    var i :| 0 <= i < |tails| && tails[i] == x[1..];
    assert PrependAll(head, tails)[i] == x;
  }

  lemma {:induction false} CombinationsComplete(s: seq<Implementation>, x: seq<Implementation>)
    requires Sorted(s) && Sorted(x) && Elements(x) <= Elements(s)
    ensures x in Combinations(s, |x|)
  {
    if x != [] {
      assert x[0] in Elements(s);
      SortedTail(s);
      SortedTail(x);
      if x[0] == s[0] {
        CombinationsComplete(s[1..], x[1..]);
        PrependHas(s[0], Combinations(s[1..], |x| - 1), x);
      } else {
        SortedHead(s, x[0]);
        if s[0] in Elements(x) {
          SortedHead(x, s[0]);
          ScalarTrichotomy(s[0].tool, x[0].tool);
        }
        CombinationsComplete(s[1..], x);
      }
    }
  }

  // ---------------------------------------------------------------------------
  // Scores

  datatype Score = Score(covered: int, tools: int, vendors: int, size: int, ids: seq<string>)

  function Ids(s: seq<Implementation>): (r: seq<string>)
    ensures |r| == |s| && forall i | 0 <= i < |s| :: r[i] == s[i].tool
  {
    seq(|s|, i requires 0 <= i < |s| => s[i].tool)
  }

  function ScoreOf(s: seq<Implementation>, c: Contract): Score {
    Score(if Covers(s, c) then 1 else 0, |c.requiredTools * Tools(s)|, |c.requiredVendors * Vendors(s)|, |s|, Ids(s))
  }

  predicate ScoreLess(a: Score, b: Score) {
    if a.covered != b.covered then a.covered < b.covered
    else if a.tools != b.tools then a.tools < b.tools
    else if a.vendors != b.vendors then a.vendors < b.vendors
    else if a.size != b.size then a.size < b.size
    else TupleLess(a.ids, b.ids)
  }

  lemma ScoreTransitive(a: Score, b: Score, c: Score)
    requires !ScoreLess(b, a) && !ScoreLess(c, b)
    ensures !ScoreLess(c, a)
  {
    if a.covered == b.covered == c.covered && a.tools == b.tools == c.tools && a.vendors == b.vendors == c.vendors
       && a.size == b.size == c.size {
      TupleTransitive(a.ids, b.ids, c.ids);
    }
  }

  // ---------------------------------------------------------------------------
  // Selection

  /** The independent combinations among a list, in the order they were generated. */
  function IndependentOf(lists: seq<seq<Implementation>>): seq<seq<Implementation>> {
    if lists == [] then []
    else IndependentOf(lists[..|lists| - 1]) + (if Independent(lists[|lists| - 1]) then [lists[|lists| - 1]] else [])
  }

  function Candidates(ordered: seq<Implementation>, upTo: nat): seq<seq<Implementation>> {
    if upTo == 0 then [] else Candidates(ordered, upTo - 1) + IndependentOf(Combinations(ordered, upTo))
  }

  /** `max(valid, key=score)`: the first selection no other one beats. */
  function Best(valid: seq<seq<Implementation>>, c: Contract): seq<Implementation>
    requires valid != []
  {
    var last := valid[|valid| - 1];
    if |valid| == 1 then last
    else
      var before := Best(valid[..|valid| - 1], c);
      if ScoreLess(ScoreOf(before, c), ScoreOf(last, c)) then last else before
  }

  function Select(candidates: seq<Implementation>, c: Contract): seq<Implementation> {
    var ordered := SortByTool(candidates);
    var valid := Candidates(ordered, |ordered|);
    if valid == [] then [] else Best(valid, c)
  }

  method CollectIndependent(all: seq<seq<Implementation>>, valid: seq<seq<Implementation>>)
    returns (r: seq<seq<Implementation>>)
    ensures r == valid + IndependentOf(all)
  {
    r := valid;
    for k := 0 to |all|
      invariant r == valid + IndependentOf(all[..k])
    {
      assert all[..k + 1][..k] == all[..k];
      if Independent(all[k]) {
        r := r + [all[k]];
      }
    }
    assert all[..|all|] == all;
  }

  method PickBest(valid: seq<seq<Implementation>>, c: Contract) returns (r: seq<Implementation>)
    requires valid != []
    ensures r == Best(valid, c)
  {
    r := valid[0];
    assert valid[..1] == [valid[0]];
    for k := 1 to |valid|
      invariant r == Best(valid[..k], c)
    {
      assert valid[..k + 1][..k] == valid[..k];
      if ScoreLess(ScoreOf(r, c), ScoreOf(valid[k], c)) {
        r := valid[k];
      }
    }
    assert valid[..|valid|] == valid;
  }

  /** `_select_independent_implementations`, with its loops. */
  method SelectIndependent(candidates: seq<Implementation>, c: Contract) returns (r: seq<Implementation>)
    ensures r == Select(candidates, c)
  {
    var ordered := SortByTool(candidates);
    var valid: seq<seq<Implementation>> := [];
    for size := 1 to |ordered| + 1
      invariant valid == Candidates(ordered, size - 1)
    {
      valid := CollectIndependent(Combinations(ordered, size), valid);
    }
    if valid == [] {
      return [];
    }
    r := PickBest(valid, c);
  }

  lemma {:induction false} IndependentOfMembers(lists: seq<seq<Implementation>>, x: seq<Implementation>)
    ensures x in IndependentOf(lists) <==> x in lists && Independent(x)
  {
    if lists != [] {
      var n := |lists| - 1;
      IndependentOfMembers(lists[..n], x);
      assert lists == lists[..n] + [lists[n]];
    }
  }

  lemma MembersOfSize(ordered: seq<Implementation>, size: nat, x: seq<Implementation>)
    requires Sorted(ordered)
    ensures x in IndependentOf(Combinations(ordered, size))
            <==> |x| == size && Sorted(x) && Elements(x) <= Elements(ordered) && Independent(x)
  {
    IndependentOfMembers(Combinations(ordered, size), x);
    if x in Combinations(ordered, size) {
      CombinationsSound(ordered, size, x);
    } else if |x| == size && Sorted(x) && Elements(x) <= Elements(ordered) {
      CombinationsComplete(ordered, x);
    }
  }

  lemma {:induction false} CandidatesMembers(ordered: seq<Implementation>, upTo: nat, x: seq<Implementation>)
    requires Sorted(ordered)
    ensures x in Candidates(ordered, upTo)
            <==> 1 <= |x| <= upTo && Sorted(x) && Elements(x) <= Elements(ordered) && Independent(x)
  {
    if upTo > 0 {
      CandidatesMembers(ordered, upTo - 1, x);
      MembersOfSize(ordered, upTo, x);
    }
  }

  lemma {:induction false} BestBeats(valid: seq<seq<Implementation>>, c: Contract, x: seq<Implementation>)
    requires x in valid
    ensures Best(valid, c) in valid && !ScoreLess(ScoreOf(Best(valid, c), c), ScoreOf(x, c))
  {
    var n := |valid| - 1;
    var rest, last := valid[..n], valid[n];
    assert x in rest || x == last;
    if rest == [] {
      LaterBeats(ScoreOf(x, c), ScoreOf(x, c), ScoreOf(x, c));
    } else {
      var before := Best(rest, c);
      var earlier := if x in rest then x else rest[0];
      BestBeats(rest, c, earlier);
      BestOf(valid, c);
      LaterBeats(ScoreOf(earlier, c), ScoreOf(before, c), ScoreOf(last, c));
    }
  }

  lemma BestOf(valid: seq<seq<Implementation>>, c: Contract)
    requires |valid| > 1
    ensures var last, before := valid[|valid| - 1], Best(valid[..|valid| - 1], c);
            Best(valid, c) == if ScoreLess(ScoreOf(before, c), ScoreOf(last, c)) then last else before
  {
  }

  /** The better of two scores is beaten by neither, nor by what the first was not beaten by. */
  lemma LaterBeats(x: Score, before: Score, last: Score)
    ensures !ScoreLess(last, last)
    ensures ScoreLess(before, last) && !ScoreLess(before, x) ==> !ScoreLess(last, x)
  {
    TupleIrreflexive(last.ids);
    if ScoreLess(before, last) && !ScoreLess(before, x) {
      ScoreAsymmetric(before, last);
      ScoreTransitive(x, before, last);
    }
  }

  lemma ScoreAsymmetric(a: Score, b: Score)
    requires ScoreLess(a, b)
    ensures !ScoreLess(b, a)
  {
    if a.covered == b.covered && a.tools == b.tools && a.vendors == b.vendors && a.size == b.size {
      TupleAsymmetric(a.ids, b.ids);
    }
  }

  // ---------------------------------------------------------------------------
  // What the selection guarantees

  predicate AllDifferent(list: seq<string>) {
    forall i, j | 0 <= i < j < |list| :: list[i] != list[j]
  }

  /** The counting test is pairwise independence. */
  lemma IndependentIsPairwise(s: seq<Implementation>)
    ensures Independent(s) <==> forall i, j | 0 <= i < j < |s| :: s[i].family != s[j].family && s[i].deployment != s[j].deployment
  {
    var f, d := Families(s), Deployments(s);
    ValuesCount(f, Values(f));
    ValuesCount(d, Values(d));
    if Independent(s) {
      forall i, j | 0 <= i < j < |s| ensures s[i].family != s[j].family && s[i].deployment != s[j].deployment {
        assert f[i] != f[j] && d[i] != d[j];
      }
    }
    if forall i, j | 0 <= i < j < |s| :: s[i].family != s[j].family && s[i].deployment != s[j].deployment {
      assert AllDifferent(f) && AllDifferent(d);
    }
  }

  /** The selection is an independent list of candidates in tool order, and no independent list scores higher. */
  lemma SelectIsBest(candidates: seq<Implementation>, c: Contract, x: seq<Implementation>)
    requires DistinctTools(candidates)
    ensures var r := Select(candidates, c);
            && Sorted(r) && Elements(r) <= Elements(candidates) && Independent(r)
            && (x != [] && Sorted(x) && Elements(x) <= Elements(candidates) && Independent(x) ==>
                  r != [] && !ScoreLess(ScoreOf(r, c), ScoreOf(x, c)))
  {
    var ordered := SortByTool(candidates);
    SortIsSorted(candidates);
    var valid := Candidates(ordered, |ordered|);
    CandidatesMembers(ordered, |ordered|, x);
    if x != [] && Sorted(x) && Elements(x) <= Elements(candidates) {
      SortedLength(x, ordered);
    }
    if valid != [] {
      var y := if x in valid then x else valid[0];
      BestBeats(valid, c, y);
      CandidatesMembers(ordered, |ordered|, Best(valid, c));
    }
  }

  /** What the selection puts first: meeting the contract, then required tools, then required vendors, then its size. */
  lemma SelectPriorities(candidates: seq<Implementation>, c: Contract, x: seq<Implementation>)
    requires DistinctTools(candidates)
    requires x != [] && Sorted(x) && Elements(x) <= Elements(candidates) && Independent(x)
    ensures var r := Select(candidates, c);
            var tools, others := |c.requiredTools * Tools(r)|, |c.requiredTools * Tools(x)|;
            var vendors, theirs := |c.requiredVendors * Vendors(r)|, |c.requiredVendors * Vendors(x)|;
            && (Covers(x, c) ==> Covers(r, c))
            && (Covers(x, c) == Covers(r, c) ==> tools >= others)
            && (Covers(x, c) == Covers(r, c) && tools == others ==> vendors >= theirs)
            && (Covers(x, c) == Covers(r, c) && tools == others && vendors == theirs ==> |r| >= |x|)
  {
    SelectIsBest(candidates, c, x);
  }

  /** The number of implementations a contract needs is the largest of its three demands. */
  lemma EffectiveIsLargest(c: Contract)
    ensures c.minimum <= Effective(c) && |c.requiredVendors| <= Effective(c) && |c.requiredTools| <= Effective(c)
    ensures Effective(c) == c.minimum || Effective(c) == |c.requiredVendors| || Effective(c) == |c.requiredTools|
  {
  }

  lemma {:induction false} SortedCardinality(s: seq<Implementation>)
    requires Sorted(s)
    ensures |Elements(s)| == |s|
  {
    if s != [] {
      SortedTail(s);
      SortedCardinality(s[1..]);
      assert s[0] in Elements(s);
    }
  }

  lemma SortedLength(x: seq<Implementation>, s: seq<Implementation>)
    requires Sorted(x) && Sorted(s) && Elements(x) <= Elements(s)
    ensures |x| <= |s|
  {
    SortedCardinality(x);
    SortedCardinality(s);
    SubsetSize(Elements(x), Elements(s));
  }

  /** The order candidates arrive in does not matter. */
  lemma SelectIgnoresOrder(a: seq<Implementation>, b: seq<Implementation>, c: Contract)
    requires DistinctTools(a) && DistinctTools(b) && Elements(a) == Elements(b)
    ensures Select(a, c) == Select(b, c)
  {
    SortIsSorted(a);
    SortIsSorted(b);
    SortedUnique(SortByTool(a), SortByTool(b));
  }

  // ---------------------------------------------------------------------------
  // Covering subsets

  /** Independence and coverage of a set of implementations, without any order. */
  ghost predicate IndependentSet(t: set<Implementation>) {
    forall x, y | x in t && y in t && x != y :: x.family != y.family && x.deployment != y.deployment
  }

  ghost predicate CoveringSet(t: set<Implementation>, c: Contract) {
    && |t| >= Effective(c)
    && (forall tool | tool in c.requiredTools :: exists x | x in t :: x.tool == tool)
    && (forall vendor | vendor in c.requiredVendors :: exists x | x in t :: x.vendor == vendor)
  }

  /** Some independent subset of the candidates meets the contract. */
  ghost predicate Coverable(candidates: seq<Implementation>, c: Contract) {
    exists t: set<Implementation> :: t <= Elements(candidates) && IndependentSet(t) && CoveringSet(t, c)
  }

  function Listing(ordered: seq<Implementation>, t: set<Implementation>): seq<Implementation> {
    if ordered == [] then []
    else (if ordered[0] in t then [ordered[0]] else []) + Listing(ordered[1..], t)
  }

  lemma SortedCons(x: Implementation, r: seq<Implementation>)
    requires Sorted(r) && forall i | 0 <= i < |r| :: ScalarLess(x.tool, r[i].tool)
    ensures Sorted([x] + r) && Elements([x] + r) == {x} + Elements(r)
  {
  }

  lemma {:induction false} ListingSorted(ordered: seq<Implementation>, t: set<Implementation>)
    requires Sorted(ordered)
    ensures Sorted(Listing(ordered, t)) && Elements(Listing(ordered, t)) == Elements(ordered) * t
  {
    if ordered != [] {
      var head, r := ordered[0], Listing(ordered[1..], t);
      SortedTail(ordered);
      ListingSorted(ordered[1..], t);
      assert head in Elements(ordered);
      if head in t {
        forall i | 0 <= i < |r| ensures ScalarLess(head.tool, r[i].tool) {
          assert r[i] in Elements(r);
          SortedHead(ordered, r[i]);
        }
        SortedCons(head, r);
        assert Elements(ordered) * t == {head} + Elements(ordered[1..]) * t;
      } else {
        assert [] + r == r;
        assert Elements(ordered) * t == Elements(ordered[1..]) * t;
      }
    }
  }

  lemma SortedDistinct(s: seq<Implementation>, i: nat, j: nat)
    requires Sorted(s) && i < j < |s|
    ensures s[i] != s[j]
  {
    ScalarTrichotomy(s[i].tool, s[j].tool);
  }

  /** Sorted lists and sets of implementations agree on independence and coverage. */
  lemma ListMeetsSet(s: seq<Implementation>, c: Contract)
    requires Sorted(s)
    ensures Independent(s) <==> IndependentSet(Elements(s))
    ensures Covers(s, c) <==> CoveringSet(Elements(s), c)
  {
    SortedCardinality(s);
    IndependentIsPairwise(s);
    if Independent(s) {
      forall x, y | x in Elements(s) && y in Elements(s) && x != y
        ensures x.family != y.family && x.deployment != y.deployment
      {
        var i :| 0 <= i < |s| && s[i] == x;
        var j :| 0 <= j < |s| && s[j] == y;
        if i < j {
          assert s[i].family != s[j].family;
        } else {
          assert s[j].family != s[i].family;
        }
      }
    }
    if IndependentSet(Elements(s)) {
      forall i, j | 0 <= i < j < |s| ensures s[i].family != s[j].family && s[i].deployment != s[j].deployment {
        SortedDistinct(s, i, j);
        assert s[i] in Elements(s) && s[j] in Elements(s);
      }
    }
    CoversMeetsSet(s, c);
  }

  lemma CoversMeetsSet(s: seq<Implementation>, c: Contract)
    requires |Elements(s)| == |s|
    ensures Covers(s, c) <==> CoveringSet(Elements(s), c)
  {
    forall tool ensures tool in Tools(s) <==> exists x | x in Elements(s) :: x.tool == tool {
      if tool in Tools(s) {
        var i :| 0 <= i < |s| && s[i].tool == tool;
        assert s[i] in Elements(s);
      }
    }
    forall vendor ensures vendor in Vendors(s) <==> exists x | x in Elements(s) :: x.vendor == vendor {
      if vendor in Vendors(s) {
        var i :| 0 <= i < |s| && s[i].vendor == vendor;
        assert s[i] in Elements(s);
      }
    }
  }

  /** The selection meets the contract exactly when some independent subset of the candidates does. */
  lemma SelectCoversIffPossible(candidates: seq<Implementation>, c: Contract)
    requires DistinctTools(candidates) && c.minimum >= 1
    ensures Covers(Select(candidates, c), c) <==> Coverable(candidates, c)
  {
    var r := Select(candidates, c);
    SelectIsBest(candidates, c, []);
    ListMeetsSet(r, c);
    if Covers(r, c) {
      assert Elements(r) <= Elements(candidates) && IndependentSet(Elements(r)) && CoveringSet(Elements(r), c);
    }
    if Coverable(candidates, c) {
      var t: set<Implementation> :| t <= Elements(candidates) && IndependentSet(t) && CoveringSet(t, c);
      var ordered := SortByTool(candidates);
      SortIsSorted(candidates);
      var x := Listing(ordered, t);
      ListingSorted(ordered, t);
      assert Elements(ordered) * t == t;
      ListMeetsSet(x, c);
      SelectIsBest(candidates, c, x);
    }
  }

  /** Another candidate never loses coverage. */
  lemma MoreCandidatesKeepCoverage(fewer: seq<Implementation>, more: seq<Implementation>, c: Contract)
    requires DistinctTools(fewer) && DistinctTools(more) && Elements(fewer) <= Elements(more) && c.minimum >= 1
    requires Covers(Select(fewer, c), c)
    ensures Covers(Select(more, c), c)
  {
    SelectCoversIffPossible(fewer, c);
    SelectCoversIffPossible(more, c);
    var t: set<Implementation> :| t <= Elements(fewer) && IndependentSet(t) && CoveringSet(t, c);
    assert t <= Elements(more);
  }
}
