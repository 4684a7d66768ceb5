/** Running the closed set of release commands, and the report clauses their evidence must meet.

    A process is an outcome handed in by `World`; digests are opaque functions of what they identify.
 */
module ReleaseCommands {
  import opened Wrappers
  import opened ReleaseEvidence

  datatype Purpose = CleanInstallation | AuthoringContract | SchemaExports | StaticAnalysis | TestSuite | VmGuest | FinalGitState

  const PURPOSES := [CleanInstallation, AuthoringContract, SchemaExports, StaticAnalysis, TestSuite, VmGuest, FinalGitState]

  predicate NeedsInstallation(p: Purpose) {
    p in {AuthoringContract, SchemaExports, StaticAnalysis, TestSuite}
  }

  datatype Command = Command(tool: string, argv: seq<string>)

  function Commands(p: Purpose): (c: seq<Command>)
    ensures 1 <= |c| <= 2 && (p == AuthoringContract ==> |c| == 1)
  {
    match p
    case CleanInstallation => [Command("python", ["python", "scripts/check_clean_install.py"])]
    case AuthoringContract => [Command("python", ["python", "-m", "edagym.authoring", "contract"])]
    case SchemaExports => [Command("python", ["python", "scripts/check_schema_exports.py"])]
    case StaticAnalysis =>
      [Command("python", ["python", "-m", "ruff", "check", "."]), Command("python", ["python", "-m", "mypy", "--no-incremental"])]
    case TestSuite => [Command("python", ["python", "-m", "pytest", "-q"])]
    case VmGuest =>
      [Command("go", ["go", "-C", "guest/edagym-vm-agent", "test", "./..."]),
       Command("go", ["go", "-C", "guest/edagym-vm-agent", "build", "-trimpath", "./..."])]
    case FinalGitState => [Command("git", ["git", "status", "--porcelain=v1", "--untracked-files=all"])]
  }

  datatype Invocation = Invocation(command: Command, executable: string)

  datatype Snapshot = Snapshot(digest: string, clean: bool)

  /** The repository audit that a suite runs against. */
  datatype Audit = Audit(releaseMode: bool, passed: bool, snapshot: Option<Snapshot>)

  datatype Plan = Plan(
    purpose: Purpose, repository: Snapshot, subject: string, installation: Option<string>, invocations: seq<Invocation>)

  /** One invocation's record; `exit` is absent after a timeout. */
  datatype InvocationReceipt =
    | Executed(invocation: string, exit: Option<int>, stdout: string, stderr: string)
    | DependencyUnavailable(invocation: string)

  datatype Receipt = Receipt(
    plan: Plan, invocations: seq<InvocationReceipt>, verifiedCatalog: Option<string>, environment: Option<string>)

  datatype Digests = Digests(invocation: Invocation -> string, plan: Plan -> string, receipt: Receipt -> string)

  /** A finished process, or a failure that aborts the whole suite. */
  datatype Outcome = Finished(exit: Option<int>, stdout: string, stderr: string) | Aborted

  /** What an authoring contract prints, once it has been decoded. */
  datatype Contract = Contract(revision: int, providerSchema: string, catalog: string)

  /** What the machine does, with the two digests compiled into the program: each invocation's outcome, the digest of
      the environment an installation leaves, the digest of an executable, and the canonical decoding of an output. */
  datatype World = World(
    outcome: (Purpose, nat) -> Outcome, environment: Option<string>, executable: string -> string,
    decoded: string -> Option<Contract>, providerSchema: string, publicCatalog: string)

  const PROTOCOL_REVISION := 1

  /** `parse_authoring_contract_output`: the catalog digest of an output that passes the receipt's own validator. */
  function ParseContract(w: World, stdout: string): (r: Option<string>)
    ensures r.Some? <==> w.decoded(stdout) == Some(Contract(PROTOCOL_REVISION, w.providerSchema, w.publicCatalog))
    ensures r.Some? ==> r.value == w.publicCatalog
  {
    match w.decoded(stdout)
    case Some(c) =>
      if c.revision == PROTOCOL_REVISION && c.providerSchema == w.providerSchema && c.catalog == w.publicCatalog
      then Some(c.catalog) else None
    case None => None
  }

  function InvocationStatus(r: InvocationReceipt): Status {
    match r
    case Executed(_, exit, _, _) => if exit == Some(0) then Passed else Failed
    case DependencyUnavailable(_) => Unavailable
  }

  predicate AnyStatus(rs: seq<InvocationReceipt>, s: Status) {
    exists i | 0 <= i < |rs| :: InvocationStatus(rs[i]) == s
  }

  function StatusOfInvocations(rs: seq<InvocationReceipt>): Status {
    Worst(AnyStatus(rs, Failed), AnyStatus(rs, Unavailable))
  }

  function StatusOfReceipt(r: Receipt): Status {
    StatusOfInvocations(r.invocations)
  }

  // ---------------------------------------------------------------------------
  // Validators
  // ---------------------------------------------------------------------------

  predicate ValidPlan(plan: Plan) {
    && |plan.invocations| == |Commands(plan.purpose)|
    && (forall i | 0 <= i < |plan.invocations| :: plan.invocations[i].command == Commands(plan.purpose)[i])
    && (NeedsInstallation(plan.purpose) <==> plan.installation.Some?)
  }

  predicate ValidReceipt(r: Receipt, d: Digests) {
    && ValidPlan(r.plan)
    && |r.invocations| == |r.plan.invocations|
    && (forall i | 0 <= i < |r.invocations| :: r.invocations[i].invocation == d.invocation(r.plan.invocations[i]))
    && (r.plan.purpose == FinalGitState && StatusOfReceipt(r) == Passed ==>
          forall i | 0 <= i < |r.invocations| :: r.invocations[i].Executed? && r.invocations[i].stdout == "" && r.invocations[i].stderr == "")
    && (if r.plan.purpose == AuthoringContract then StatusOfReceipt(r) == Passed <==> r.verifiedCatalog.Some? else r.verifiedCatalog.None?)
    && (if r.plan.purpose == CleanInstallation then StatusOfReceipt(r) == Passed <==> r.environment.Some? else r.environment.None?)
  }

  // ---------------------------------------------------------------------------
  // The runner
  // ---------------------------------------------------------------------------

  function PlanFor(w: World, p: Purpose, repository: Snapshot, subject: string, installation: Option<string>): Plan {
    Plan(p, repository, subject, installation,
         seq(|Commands(p)|, i requires 0 <= i < |Commands(p)| => Invocation(Commands(p)[i], w.executable(Commands(p)[i].tool))))
  }

  /** Every invocation ends, and an authoring contract that passes prints a valid receipt. */
  predicate Runs(w: World, p: Purpose) {
    forall i | 0 <= i < |Commands(p)| ::
      && w.outcome(p, i).Finished?
      && (p == AuthoringContract && w.outcome(p, i).exit == Some(0) ==> ParseContract(w, w.outcome(p, i).stdout).Some?)
  }

  predicate AllZero(w: World, p: Purpose) {
    forall i | 0 <= i < |Commands(p)| :: w.outcome(p, i).Finished? && w.outcome(p, i).exit == Some(0)
  }

  /** Nothing about this purpose aborts the suite. */
  predicate Completes(w: World, p: Purpose) {
    && Runs(w, p)
    && (p == CleanInstallation && AllZero(w, p) ==> w.environment.Some?)
    && (p == FinalGitState && AllZero(w, p) ==>
          forall i | 0 <= i < |Commands(p)| :: w.outcome(p, i).stdout == "" && w.outcome(p, i).stderr == "")
  }

  /** Receipts that record the outcomes of a plan's invocations. */
  predicate Records(w: World, d: Digests, plan: Plan, receipts: seq<InvocationReceipt>) {
    && |receipts| == |plan.invocations| == |Commands(plan.purpose)|
    && forall i | 0 <= i < |receipts| ::
         var o := w.outcome(plan.purpose, i);
         o.Finished? && receipts[i] == Executed(d.invocation(plan.invocations[i]), o.exit, o.stdout, o.stderr)
  }

  lemma RecordedStatus(w: World, d: Digests, plan: Plan, receipts: seq<InvocationReceipt>)
    requires Records(w, d, plan, receipts)
    ensures StatusOfInvocations(receipts) == if AllZero(w, plan.purpose) then Passed else Failed
  {
    if !AllZero(w, plan.purpose) {
      var i :| 0 <= i < |receipts| && !(w.outcome(plan.purpose, i).Finished? && w.outcome(plan.purpose, i).exit == Some(0));
      assert InvocationStatus(receipts[i]) == Failed;
    }
  }

  /** Runs a plan's invocations in order; no result when one of them aborts the suite or the output of an authoring
      contract that passed is not a valid receipt for the public catalog. */
  method RunInvocations(w: World, d: Digests, plan: Plan) returns (r: Option<seq<InvocationReceipt>>, catalog: Option<string>)
    requires ValidPlan(plan)
    ensures r.Some? <==> Runs(w, plan.purpose)
    ensures r.Some? ==>
              && Records(w, d, plan, r.value)
              && catalog == if plan.purpose == AuthoringContract && AllZero(w, plan.purpose) then Some(w.publicCatalog) else None
  {
    var done: seq<InvocationReceipt> := [];
    catalog := None;
    for i := 0 to |plan.invocations|
      invariant |done| == i
      invariant forall k | 0 <= k < i ::
                  var o := w.outcome(plan.purpose, k);
                  && o.Finished? && done[k] == Executed(d.invocation(plan.invocations[k]), o.exit, o.stdout, o.stderr)
                  && (plan.purpose == AuthoringContract && o.exit == Some(0) ==> ParseContract(w, o.stdout).Some?)
      invariant catalog == if plan.purpose == AuthoringContract && i == 1 && InvocationStatus(done[0]) == Passed
                           then Some(w.publicCatalog) else None
    {
      match w.outcome(plan.purpose, i) {
        case Aborted => return None, None;
        case Finished(exit, stdout, stderr) =>
          var receipt := Executed(d.invocation(plan.invocations[i]), exit, stdout, stderr);
          done := done + [receipt];
          if plan.purpose == AuthoringContract && InvocationStatus(receipt) == Passed {
            catalog := ParseContract(w, stdout);
            if catalog.None? {
              return None, None;
            }
          }
      }
    }
    r := Some(done);
  }

  /** What every command asks of the audit it runs against. */
  predicate Auditable(audit: Audit) {
    audit.releaseMode && audit.passed && audit.snapshot.Some? && audit.snapshot.value.clean
  }

  /** The installation handed to a command is the passing one it needs, or absent when it needs none. */
  predicate Prerequisite(p: Purpose, installation: Option<Receipt>, repository: Snapshot) {
    if NeedsInstallation(p) then
      && installation.Some? && installation.value.plan.purpose == CleanInstallation
      && StatusOfReceipt(installation.value) == Passed && installation.value.plan.repository == repository
      && installation.value.environment.Some?
    else installation.None?
  }

  /** `execute_release_command`: it returns exactly when nothing aborts it. */
  method Execute(w: World, d: Digests, audit: Audit, timeout: int, p: Purpose, subject: string, installation: Option<Receipt>)
    returns (r: Option<Receipt>)
    ensures r.Some? <==> && Auditable(audit) && timeout > 0 && Prerequisite(p, installation, audit.snapshot.value)
                         && Completes(w, p)
    ensures r.Some? ==>
              && ValidReceipt(r.value, d) && StatusOfReceipt(r.value) == (if AllZero(w, p) then Passed else Failed)
              && r.value.plan == PlanFor(w, p, audit.snapshot.value, subject, if installation.Some? then Some(d.receipt(installation.value)) else None)
              && (r.value.verifiedCatalog.Some? ==> r.value.verifiedCatalog == Some(w.publicCatalog))
  {
    if !Auditable(audit) || timeout <= 0 {
      return None;
    }
    var repository := audit.snapshot.value;
    if NeedsInstallation(p) {
      if installation.None? || installation.value.plan.purpose != CleanInstallation
         || StatusOfReceipt(installation.value) != Passed || installation.value.plan.repository != repository
         || installation.value.environment.None? {
        return None;
      }
    } else if installation.Some? {
      return None;
    }
    var bound := if installation.Some? then Some(d.receipt(installation.value)) else None;
    var plan := PlanFor(w, p, repository, subject, bound);
    var receipts, catalog := RunInvocations(w, d, plan);
    if receipts.None? {
      return None;
    }
    RecordedStatus(w, d, plan, receipts.value);
    var environment: Option<string> := None;
    if p == CleanInstallation && StatusOfInvocations(receipts.value) == Passed {
      environment := w.environment;
      if environment.None? {
        return None;
      }
    }
    var source := Receipt(plan, receipts.value, catalog, environment);
    if p == FinalGitState && StatusOfReceipt(source) == Passed
       && exists i | 0 <= i < |source.invocations| :: source.invocations[i].stdout != "" || source.invocations[i].stderr != "" {
      return None;
    }
    r := Some(source);
  }

  /** `_unavailable_release_command` */
  method MarkUnavailable(w: World, d: Digests, audit: Audit, p: Purpose, subject: string, installation: Receipt)
    returns (r: Option<Receipt>)
    ensures r.Some? <==> && NeedsInstallation(p) && audit.snapshot.Some? && installation.plan.purpose == CleanInstallation
                         && installation.plan.repository == audit.snapshot.value
    ensures r.Some? ==>
              && ValidReceipt(r.value, d) && StatusOfReceipt(r.value) == Unavailable
              && r.value.plan == PlanFor(w, p, audit.snapshot.value, subject, Some(d.receipt(installation)))
  {
    if !NeedsInstallation(p) || audit.snapshot.None? || installation.plan.purpose != CleanInstallation
       || installation.plan.repository != audit.snapshot.value {
      return None;
    }
    var plan := PlanFor(w, p, audit.snapshot.value, subject, Some(d.receipt(installation)));
    var receipts := seq(|plan.invocations|, i requires 0 <= i < |plan.invocations| => DependencyUnavailable(d.invocation(plan.invocations[i])));
    assert InvocationStatus(receipts[0]) == Unavailable;
    r := Some(Receipt(plan, receipts, None, None));
  }

  /** `_release_input_subject` */
  function Subject(p: Purpose, repository: Snapshot, catalog: string): string {
    if p == AuthoringContract then catalog else repository.digest
  }

  /** One result as the suite promises it, given the installation that came first. */
  predicate Bound(r: Receipt, installation: Receipt, p: Purpose, d: Digests, repository: Snapshot, catalog: string) {
    && ValidReceipt(r, d)
    && r.plan.purpose == p && r.plan.repository == repository && r.plan.subject == Subject(p, repository, catalog)
    && r.plan.installation == (if NeedsInstallation(p) then Some(d.receipt(installation)) else None)
    && (StatusOfReceipt(r) == Unavailable <==> NeedsInstallation(p) && StatusOfReceipt(installation) != Passed)
    && (r.verifiedCatalog.Some? ==> r.verifiedCatalog == Some(catalog))
  }

  /** Each purpose once, in order, all bound to the first. */
  predicate Complete(results: seq<Receipt>, d: Digests, repository: Snapshot, catalog: string) {
    && |results| == |PURPOSES|
    && forall i | 0 <= i < |results| :: Bound(results[i], results[0], PURPOSES[i], d, repository, catalog)
  }

  /** `execute_release_commands`: whenever it returns, the suite is complete, and its projection under any artifact
      policy meets every command clause of the report for the same audit and catalog. */
  method ExecuteAll(w: World, d: Digests, audit: Audit, timeout: int) returns (r: Option<seq<Receipt>>)
    ensures r.Some? <==> Auditable(audit) && timeout > 0 && forall p: Purpose :: Done(w, p)
    ensures r.Some? ==> Complete(r.value, d, audit.snapshot.value, w.publicCatalog)
    ensures r.Some? ==>
              forall policy :: ReportClauses(ProjectAll(r.value, d, policy), audit.snapshot.value.digest, w.publicCatalog)
  {
    if audit.snapshot.None? {
      return None;
    }
    var repository := audit.snapshot.value;
    var installation := Execute(w, d, audit, timeout, CleanInstallation, repository.digest, None);
    assert Done(w, CleanInstallation) <==> Completes(w, CleanInstallation);
    if installation.None? {
      return None;
    }
    var first := installation.value;
    var results := [first];
    for i := 1 to |PURPOSES|
      invariant |results| == i && results[0] == first
      invariant forall k | 0 <= k < i :: Bound(results[k], first, PURPOSES[k], d, repository, w.publicCatalog)
      invariant forall k | 0 <= k < i :: Done(w, PURPOSES[k])
    {
      var next := ExecuteNext(w, d, audit, timeout, PURPOSES[i], first);
      if next.None? {
        return None;
      }
      results := results + [next.value];
    }
    forall p: Purpose ensures Done(w, p) {
      var k := PurposesListed(p);
      assert PURPOSES[k] == p;
    }
    forall policy ensures ReportClauses(ProjectAll(results, d, policy), repository.digest, w.publicCatalog) {
      SuiteMeetsReport(results, d, policy, repository, w.publicCatalog);
    }
    r := Some(results);
  }

  /** A purpose after the installation: executed, or marked unavailable when the installation it needs did not pass. */
  method ExecuteNext(w: World, d: Digests, audit: Audit, timeout: int, p: Purpose, first: Receipt) returns (r: Option<Receipt>)
    requires Auditable(audit) && timeout > 0 && p != CleanInstallation
    requires Bound(first, first, CleanInstallation, d, audit.snapshot.value, w.publicCatalog)
    requires StatusOfReceipt(first) == if AllZero(w, CleanInstallation) then Passed else Failed
    ensures r.Some? <==> Done(w, p)
    ensures r.Some? ==> Bound(r.value, first, p, d, audit.snapshot.value, w.publicCatalog)
  {
    var subject := Subject(p, audit.snapshot.value, w.publicCatalog);
    if NeedsInstallation(p) && StatusOfReceipt(first) != Passed {
      r := MarkUnavailable(w, d, audit, p, subject, first);
    } else {
      r := Execute(w, d, audit, timeout, p, subject, if NeedsInstallation(p) then Some(first) else None);
    }
  }

  /** The suite gets past this purpose. */
  predicate Done(w: World, p: Purpose) {
    Completes(w, p) || (NeedsInstallation(p) && !AllZero(w, CleanInstallation))
  }

  // ---------------------------------------------------------------------------
  // The report's command clauses
  // ---------------------------------------------------------------------------

  datatype Evidence = Evidence(
    purpose: Purpose, plan: string, receipt: string, repository: string, policy: string, subject: string,
    installation: Option<string>, verifiedCatalog: Option<string>, invocations: seq<InvocationReceipt>, status: Status)

  /** `project_release_command` */
  function Project(r: Receipt, d: Digests, policy: string): Evidence {
    Evidence(r.plan.purpose, d.plan(r.plan), d.receipt(r), r.plan.repository.digest, policy, r.plan.subject,
             r.plan.installation, r.verifiedCatalog, r.invocations, StatusOfReceipt(r))
  }

  function ProjectAll(results: seq<Receipt>, d: Digests, policy: string): seq<Evidence> {
    seq(|results|, i requires 0 <= i < |results| => Project(results[i], d, policy))
  }

  predicate ValidEvidence(e: Evidence) {
    && e.invocations != []
    && (if e.purpose == AuthoringContract then e.status == Passed <==> e.verifiedCatalog.Some? else e.verifiedCatalog.None?)
    && (NeedsInstallation(e.purpose) <==> e.installation.Some?)
    && e.status == StatusOfInvocations(e.invocations)
  }

  /** What the report asks of one command, given the installation's evidence. */
  predicate CommandClauses(e: Evidence, installation: Evidence, repository: string, catalog: string) {
    && e.repository == repository
    && (if e.purpose == AuthoringContract
        then e.subject == catalog && (e.status == Passed ==> e.verifiedCatalog == Some(catalog))
        else e.subject == repository)
    && e.installation == (if NeedsInstallation(e.purpose) then Some(installation.receipt) else None)
  }

  predicate HasPurpose(es: seq<Evidence>, p: Purpose) {
    exists i | 0 <= i < |es| :: es[i].purpose == p
  }

  /** Every purpose, none twice, one artifact policy, every record valid in itself. */
  ghost predicate Covered(es: seq<Evidence>) {
    && (forall p: Purpose :: HasPurpose(es, p))
    && (forall i, j | 0 <= i < j < |es| :: es[i].purpose != es[j].purpose)
    && (forall i, j | 0 <= i < |es| && 0 <= j < |es| :: es[i].policy == es[j].policy)
    && (forall i | 0 <= i < |es| :: ValidEvidence(es[i]))
  }

  predicate AllBound(es: seq<Evidence>, repository: string, catalog: string) {
    forall i, j | 0 <= i < |es| && 0 <= j < |es| && es[j].purpose == CleanInstallation ::
      CommandClauses(es[i], es[j], repository, catalog)
  }

  /** The clauses over all commands, with the one installation among them. */
  ghost predicate ReportClauses(es: seq<Evidence>, repository: string, catalog: string) {
    Covered(es) && AllBound(es, repository, catalog)
  }

  lemma PurposesListed(p: Purpose) returns (i: nat)
    ensures i < |PURPOSES| && PURPOSES[i] == p
    ensures forall j | 0 <= j < |PURPOSES| && PURPOSES[j] == p :: j == i
  {
    i := match p
      case CleanInstallation => 0
      case AuthoringContract => 1
      case SchemaExports => 2
      case StaticAnalysis => 3
      case TestSuite => 4
      case VmGuest => 5
      case FinalGitState => 6;
  }

  /** Everything the report asks of one command holds of a complete suite. */
  lemma ClausesOfOne(results: seq<Receipt>, d: Digests, policy: string, repository: Snapshot, catalog: string, i: nat)
    requires Complete(results, d, repository, catalog) && i < |results|
    ensures var es := ProjectAll(results, d, policy);
            && es[i].purpose == PURPOSES[i] && ValidEvidence(es[i])
            && CommandClauses(es[i], es[0], repository.digest, catalog)
  {
    assert Bound(results[i], results[0], PURPOSES[i], d, repository, catalog);
  }

  lemma SuiteIsCovered(results: seq<Receipt>, d: Digests, policy: string, repository: Snapshot, catalog: string)
    requires Complete(results, d, repository, catalog)
    ensures Covered(ProjectAll(results, d, policy))
  {
    var es := ProjectAll(results, d, policy);
    forall i | 0 <= i < |es| ensures es[i].purpose == PURPOSES[i] && ValidEvidence(es[i]) {
      ClausesOfOne(results, d, policy, repository, catalog, i);
    }
    forall p: Purpose ensures HasPurpose(es, p) {
      var i := PurposesListed(p);
      assert es[i].purpose == p;
    }
    forall i, j | 0 <= i < j < |es| ensures es[i].purpose != es[j].purpose {
      var k := PurposesListed(PURPOSES[i]);
    }
  }

  /** A complete suite satisfies every command clause of the report for the same audit and catalog. */
  lemma SuiteMeetsReport(results: seq<Receipt>, d: Digests, policy: string, repository: Snapshot, catalog: string)
    requires Complete(results, d, repository, catalog)
    ensures ReportClauses(ProjectAll(results, d, policy), repository.digest, catalog)
  {
    SuiteIsCovered(results, d, policy, repository, catalog);
    var es := ProjectAll(results, d, policy);
    forall i, j | 0 <= i < |es| && 0 <= j < |es| && es[j].purpose == CleanInstallation
      ensures CommandClauses(es[i], es[j], repository.digest, catalog)
    {
      ClausesOfOne(results, d, policy, repository, catalog, i);
      ClausesOfOne(results, d, policy, repository, catalog, j);
      var k := PurposesListed(CleanInstallation);
      assert j == k == 0;
    }
  }

  /** The four commands after the installation run against it, and the guest build and the final state do not. */
  lemma DependentsFollowInstallation(results: seq<Receipt>, d: Digests, repository: Snapshot, catalog: string, i: nat)
    requires Complete(results, d, repository, catalog) && i < |results|
    ensures results[i].plan.purpose ==
            [CleanInstallation, AuthoringContract, SchemaExports, StaticAnalysis, TestSuite, VmGuest, FinalGitState][i]
    ensures results[i].plan.installation == if 1 <= i <= 4 then Some(d.receipt(results[0])) else None
    ensures StatusOfReceipt(results[i]) == Unavailable <==> 1 <= i <= 4 && StatusOfReceipt(results[0]) != Passed
  {
    assert Bound(results[i], results[0], PURPOSES[i], d, repository, catalog);
    assert i == 0 || i == 1 || i == 2 || i == 3 || i == 4 || i == 5 || i == 6;
  }

  /** Different commands never share a plan or a receipt, so only a digest collision could make their digests equal. */
  lemma PreimagesDiffer(results: seq<Receipt>, d: Digests, repository: Snapshot, catalog: string, i: nat, j: nat)
    requires Complete(results, d, repository, catalog) && i < j < |results|
    ensures results[i].plan != results[j].plan && results[i] != results[j]
  {
    assert Bound(results[i], results[0], PURPOSES[i], d, repository, catalog);
    assert Bound(results[j], results[0], PURPOSES[j], d, repository, catalog);
    var k := PurposesListed(PURPOSES[i]);
  }
}
