/** The coverage record of a capability, and its own validator. */
module BackendProjection {
  import opened Wrappers
  import opened Counting
  import opened ReleaseEvidence
  import opened BackendCoverage
  import KeyOrder

  datatype CapabilityResult = CapabilityResult(status: Status, family: Option<string>)

  datatype Backend = Backend(tool: string, vendor: string, deployment: Option<string>, results: map<string, CapabilityResult>)

  datatype Coverage = Coverage(
    required: nat, conformant: seq<string>, independent: seq<Implementation>, failed: seq<string>,
    unavailable: seq<string>, status: Status)

  predicate DistinctBackends(bs: seq<Backend>) {
    forall i, j | 0 <= i < j < |bs| :: bs[i].tool != bs[j].tool
  }

  predicate Has(b: Backend, capability: string, status: Status) {
    capability in b.results && b.results[capability].status == status
  }

  /** Tool ids of the backends with a given result for the capability, in order. */
  function ToolsWith(bs: seq<Backend>, capability: string, status: Status): seq<string> {
    if bs == [] then []
    else (if Has(bs[0], capability, status) then [bs[0].tool] else []) + ToolsWith(bs[1..], capability, status)
  }

  predicate IsCandidate(b: Backend, capability: string) {
    Has(b, capability, Passed) && b.results[capability].family.Some? && b.deployment.Some?
  }

  function CandidateOf(b: Backend, capability: string): Implementation
    requires IsCandidate(b, capability)
  {
    Implementation(b.tool, b.vendor, b.results[capability].family.value, b.deployment.value)
  }

  function CandidatesFrom(bs: seq<Backend>, capability: string): seq<Implementation> {
    if bs == [] then []
    else (if IsCandidate(bs[0], capability) then [CandidateOf(bs[0], capability)] else []) + CandidatesFrom(bs[1..], capability)
  }

  /** One row of `project_backend_coverage`. */
  function Project(bs: seq<Backend>, capability: string, c: Contract): Coverage {
    var independent := Select(CandidatesFrom(bs, capability), c);
    var failed := ToolsWith(bs, capability, Failed);
    Coverage(Effective(c), ToolsWith(bs, capability, Passed), independent, failed, ToolsWith(bs, capability, Unavailable),
             if Covers(independent, c) then Passed else if failed != [] then Failed else Unavailable)
  }

  /** The validators of `BackendCapabilityCoverage`. */
  predicate ValidCoverage(r: Coverage, c: Contract) {
    && AllDifferent(r.conformant) && AllDifferent(r.failed) && AllDifferent(r.unavailable)
    && AllDifferent(Ids(r.independent)) && AllDifferent(Families(r.independent)) && AllDifferent(Deployments(r.independent))
    && Values(r.conformant) !! Values(r.failed) && Values(r.conformant) !! Values(r.unavailable)
    && Values(r.failed) !! Values(r.unavailable)
    && Tools(r.independent) <= Values(r.conformant)
    && 1 <= r.required <= 3 && r.required == Effective(c)
    && r.status == (if Covers(r.independent, c) then Passed else if r.failed != [] then Failed else Unavailable)
  }

  lemma {:induction false} ToolsWithMembers(bs: seq<Backend>, capability: string, status: Status, tool: string)
    ensures tool in ToolsWith(bs, capability, status) <==>
            exists i | 0 <= i < |bs| :: bs[i].tool == tool && Has(bs[i], capability, status)
  {
    if bs != [] {
      ToolsWithMembers(bs[1..], capability, status, tool);
      if exists i | 0 <= i < |bs| :: bs[i].tool == tool && Has(bs[i], capability, status) {
        var i :| 0 <= i < |bs| && bs[i].tool == tool && Has(bs[i], capability, status);
        if i > 0 { assert bs[1..][i - 1] == bs[i]; }
      }
      if exists i | 0 <= i < |bs[1..]| :: bs[1..][i].tool == tool && Has(bs[1..][i], capability, status) {
        var i :| 0 <= i < |bs[1..]| && bs[1..][i].tool == tool && Has(bs[1..][i], capability, status);
        assert bs[i + 1].tool == tool;
      }
    }
  }

  lemma {:induction false} ToolsWithDifferent(bs: seq<Backend>, capability: string, status: Status)
    requires DistinctBackends(bs)
    ensures AllDifferent(ToolsWith(bs, capability, status))
  {
    if bs != [] {
      ToolsWithDifferent(bs[1..], capability, status);
      ToolsWithMembers(bs[1..], capability, status, bs[0].tool);
      assert forall i | 0 <= i < |bs[1..]| :: bs[1..][i].tool != bs[0].tool;
      var rest := ToolsWith(bs[1..], capability, status);
      assert forall i | 0 <= i < |rest| :: rest[i] in rest;
      assert [] + rest == rest;
    }
  }

  lemma ToolsWithDisjoint(bs: seq<Backend>, capability: string, s: Status, t: Status)
    requires DistinctBackends(bs) && s != t
    ensures Values(ToolsWith(bs, capability, s)) !! Values(ToolsWith(bs, capability, t))
  {
    forall tool | tool in ToolsWith(bs, capability, s) ensures tool !in ToolsWith(bs, capability, t) {
      ToolsWithMembers(bs, capability, s, tool);
      ToolsWithMembers(bs, capability, t, tool);
      var i :| 0 <= i < |bs| && bs[i].tool == tool && Has(bs[i], capability, s);
      assert forall j | 0 <= j < |bs| && bs[j].tool == tool :: j == i;
    }
  }

  lemma {:induction false} CandidateMembers(bs: seq<Backend>, capability: string, x: Implementation)
    ensures x in CandidatesFrom(bs, capability) <==>
            exists i | 0 <= i < |bs| :: IsCandidate(bs[i], capability) && x == CandidateOf(bs[i], capability)
  {
    if bs != [] {
      CandidateMembers(bs[1..], capability, x);
      if exists i | 0 <= i < |bs| :: IsCandidate(bs[i], capability) && x == CandidateOf(bs[i], capability) {
        var i :| 0 <= i < |bs| && IsCandidate(bs[i], capability) && x == CandidateOf(bs[i], capability);
        if i > 0 { assert bs[1..][i - 1] == bs[i]; }
      }
      if exists i | 0 <= i < |bs[1..]| :: IsCandidate(bs[1..][i], capability) && x == CandidateOf(bs[1..][i], capability) {
        var i :| 0 <= i < |bs[1..]| && IsCandidate(bs[1..][i], capability) && x == CandidateOf(bs[1..][i], capability);
        assert IsCandidate(bs[i + 1], capability) && x == CandidateOf(bs[i + 1], capability);
      }
    }
  }

  lemma {:induction false} CandidatesDistinct(bs: seq<Backend>, capability: string)
    requires DistinctBackends(bs)
    ensures DistinctTools(CandidatesFrom(bs, capability))
  {
    if bs != [] {
      CandidatesDistinct(bs[1..], capability);
      var rest := CandidatesFrom(bs[1..], capability);
      forall k | 0 <= k < |rest| ensures rest[k].tool != bs[0].tool {
        CandidateMembers(bs[1..], capability, rest[k]);
        var i :| 0 <= i < |bs[1..]| && IsCandidate(bs[1..][i], capability) && rest[k] == CandidateOf(bs[1..][i], capability);
        assert bs[i + 1].tool != bs[0].tool;
      }
      assert [] + rest == rest;
    }
  }

  /** For backends with distinct tool ids, and a contract's minimum of one to three, the projected record meets its own
      validator if and only if the contract names at most three vendors and at most three tools. */
  lemma ProjectedIsValid(bs: seq<Backend>, capability: string, c: Contract)
    requires DistinctBackends(bs) && 1 <= c.minimum <= 3
    ensures ValidCoverage(Project(bs, capability, c), c) <==> |c.requiredVendors| <= 3 && |c.requiredTools| <= 3
  {
    var r := Project(bs, capability, c);
    ToolsWithDifferent(bs, capability, Passed);
    ToolsWithDifferent(bs, capability, Failed);
    ToolsWithDifferent(bs, capability, Unavailable);
    ToolsWithDisjoint(bs, capability, Passed, Failed);
    ToolsWithDisjoint(bs, capability, Passed, Unavailable);
    ToolsWithDisjoint(bs, capability, Failed, Unavailable);
    CandidatesDistinct(bs, capability);
    var candidates := CandidatesFrom(bs, capability);
    SelectIsBest(candidates, c, []);
    IndependentUnique(r.independent);
    forall k | 0 <= k < |r.independent| ensures r.independent[k].tool in r.conformant {
      assert r.independent[k] in Elements(candidates);
      CandidateMembers(bs, capability, r.independent[k]);
      ToolsWithMembers(bs, capability, Passed, r.independent[k].tool);
    }
  }

  lemma IndependentUnique(s: seq<Implementation>)
    requires Sorted(s) && Independent(s)
    ensures AllDifferent(Ids(s)) && AllDifferent(Families(s)) && AllDifferent(Deployments(s))
  {
    ValuesCount(Families(s), Values(Families(s)));
    ValuesCount(Deployments(s), Values(Deployments(s)));
    forall i, j | 0 <= i < j < |s| ensures Ids(s)[i] != Ids(s)[j] {
      KeyOrder.ScalarTrichotomy(s[i].tool, s[j].tool);
    }
  }

  /** A capability passes exactly when some independent set of conformant implementations meets its contract. */
  lemma PassedIffCoverable(bs: seq<Backend>, capability: string, c: Contract)
    requires DistinctBackends(bs) && c.minimum >= 1
    ensures Project(bs, capability, c).status == Passed <==> Coverable(CandidatesFrom(bs, capability), c)
  {
    CandidatesDistinct(bs, capability);
    SelectCoversIffPossible(CandidatesFrom(bs, capability), c);
  }

  /** Adding a backend, whatever its result, never loses a pass. */
  lemma AddingKeepsPassed(bs: seq<Backend>, extra: Backend, capability: string, c: Contract)
    requires DistinctBackends(bs) && DistinctBackends(bs + [extra]) && c.minimum >= 1
    requires Project(bs, capability, c).status == Passed
    ensures Project(bs + [extra], capability, c).status == Passed
  {
    var fewer, more := CandidatesFrom(bs, capability), CandidatesFrom(bs + [extra], capability);
    CandidatesDistinct(bs, capability);
    CandidatesDistinct(bs + [extra], capability);
    forall x | x in Elements(fewer) ensures x in Elements(more) {
      CandidateMembers(bs, capability, x);
      CandidateMembers(bs + [extra], capability, x);
      var i :| 0 <= i < |bs| && IsCandidate(bs[i], capability) && x == CandidateOf(bs[i], capability);
      assert (bs + [extra])[i] == bs[i];
    }
    MoreCandidatesKeepCoverage(fewer, more, c);
  }

  /** A candidate carries the tool, vendor and deployment of one conformant backend, and that backend's family for the
      capability. */
  lemma CandidateMeans(bs: seq<Backend>, capability: string, x: Implementation)
    ensures x in CandidatesFrom(bs, capability) <==>
            exists i | 0 <= i < |bs| ::
              && bs[i].tool == x.tool && bs[i].vendor == x.vendor && bs[i].deployment == Some(x.deployment)
              && capability in bs[i].results && bs[i].results[capability] == CapabilityResult(Passed, Some(x.family))
  {
    CandidateMembers(bs, capability, x);
    if i :| 0 <= i < |bs| && bs[i].tool == x.tool && bs[i].vendor == x.vendor && bs[i].deployment == Some(x.deployment)
            && capability in bs[i].results && bs[i].results[capability] == CapabilityResult(Passed, Some(x.family)) {
      assert IsCandidate(bs[i], capability) && x == CandidateOf(bs[i], capability);
    }
    if i :| 0 <= i < |bs| && IsCandidate(bs[i], capability) && x == CandidateOf(bs[i], capability) {
      assert bs[i].results[capability] == CapabilityResult(Passed, Some(x.family));
    }
  }

  /** A passed capability has conformant backends of every vendor and for every tool its contract requires. */
  lemma PassedHasRequired(bs: seq<Backend>, capability: string, c: Contract)
    requires DistinctBackends(bs) && Project(bs, capability, c).status == Passed
    ensures forall v | v in c.requiredVendors :: exists i | 0 <= i < |bs| :: bs[i].vendor == v && Has(bs[i], capability, Passed)
    ensures forall t | t in c.requiredTools :: exists i | 0 <= i < |bs| :: bs[i].tool == t && Has(bs[i], capability, Passed)
  {
    var candidates := CandidatesFrom(bs, capability);
    var r := Select(candidates, c);
    CandidatesDistinct(bs, capability);
    SelectIsBest(candidates, c, []);
    forall k | 0 <= k < |r| ensures exists i | 0 <= i < |bs| :: bs[i].tool == r[k].tool && bs[i].vendor == r[k].vendor && Has(bs[i], capability, Passed) {
      assert r[k] in Elements(candidates);
      CandidateMeans(bs, capability, r[k]);
    }
    assert c.requiredVendors <= Vendors(r) && c.requiredTools <= Tools(r);
  }
}
