/** Projecting one replayed smoke trial into requirement evidence, and the validator that evidence must meet. */
module ReleaseTrial {
  import opened Wrappers
  import opened ReleaseEvidence

  datatype Requirement =
    | TaskBreadth | CandidateChange | OpenSourceEda | CommercialEda | EdaInputIsolation | ControlledFeedback
    | Checkpoint | ParticipantRecovery | HiddenVerifier | ArtifactCommit | AtifProjection | ReportProjection

  datatype ArtifactClass = Ephemeral | Diagnostic | CandidateState | CheckpointState | EvidenceState | Measurement | Release | Training

  datatype Candidate = Candidate(id: string, sequence: int, parent: Option<string>, digest: string)

  /** A request and the event that completes it, by journal position. */
  datatype Exchange = Exchange(request: int, response: int)

  datatype CommittedCheckpoint = CommittedCheckpoint(id: string, sequence: int, manifest: string)

  datatype Evaluation = Evaluation(candidateId: string, sequence: int, visibleFailure: bool)

  datatype RestartRecord = RestartRecord(
    terminated: int, restored: int, checkpointId: string, manifest: string, restoredManifest: string)

  /** A restart that the journal accepted: it restored the manifest it was terminated with
      (`src/edagym/run/model.py:422-428`, `src/edagym/run/journal.py:263-289`). */
  type Restart = r: RestartRecord | r.restoredManifest == r.manifest witness RestartRecord(0, 0, "", "", "")

  datatype Settled = Settled(capability: string, tool: string, sequence: int)

  datatype Vendor = OpenSource | Commercial

  /** Which third of the smoke breadth a trial's family, role and capability stand for. */
  datatype TaskKind = RtlGeneration | SynthesisTiming | LongFlow | OtherTask

  /** What the projector takes from the journal, the specifications and the verified backends. */
  datatype Run = Run(
    trialId: string, runId: string, kind: TaskKind, training: bool, roleAdmitsCapability: bool,
    candidates: seq<Candidate>, successful: Option<string>, writes: seq<Exchange>,
    evaluations: seq<Evaluation>, exchanges: seq<Exchange>, feedbackAllowed: bool,
    settled: seq<Settled>, operations: seq<(string, string)>, brokeredHost: bool, securityBindings: seq<bool>,
    conformant: map<(string, string), Vendor>,
    checkpoints: seq<CommittedCheckpoint>, checkpointResults: seq<Exchange>,
    restarts: seq<Restart>, incarnationActive: bool, terminationPending: bool,
    verifierSucceeded: bool, sourcesDisjoint: bool,
    artifacts: set<ArtifactClass>, atif: Option<string>, report: Option<string>)

  datatype RecoveryEvidence = RecoveryEvidence(
    checkpointId: string, manifest: string, terminated: int, restored: int, restoredManifest: string, candidateId: string)

  datatype Trial = Trial(
    trialId: string, runId: string, kind: TaskKind, training: bool, roleAdmitsCapability: bool,
    recovery: Option<RecoveryEvidence>, candidateIds: seq<string>, toolIds: seq<string>, checkpointIds: seq<string>,
    artifacts: set<ArtifactClass>, atif: Option<string>, report: Option<string>,
    failed: set<Requirement>, unavailable: set<Requirement>, status: Status)

  const RETAINED := {CandidateState, CheckpointState, EvidenceState}
  const STATEFUL := {CandidateChange, ControlledFeedback, Checkpoint, ParticipantRecovery}

  // ---------------------------------------------------------------------------
  // The facts the projector looks for
  // ---------------------------------------------------------------------------

  /** A dictionary by identifier: the last of several equal identifiers wins. */
  function Lookup(candidates: seq<Candidate>, id: Option<string>): (r: Option<Candidate>)
    ensures r.Some? ==> r.value in candidates && id == Some(r.value.id)
  {
    if candidates == [] || id.None? then None
    else if candidates[|candidates| - 1].id == id.value then Some(candidates[|candidates| - 1])
    else Lookup(candidates[..|candidates| - 1], id)
  }

  function Successful(run: Run): Option<Candidate> {
    Lookup(run.candidates, run.successful)
  }

  function Parent(run: Run): Option<Candidate> {
    match Successful(run)
    case Some(c) => Lookup(run.candidates, c.parent)
    case None => None
  }

  predicate BeforeSuccess(run: Run, sequence: int) {
    Successful(run).Some? ==> sequence < Successful(run).value.sequence
  }

  predicate Changed(run: Run) {
    Successful(run).Some? && Parent(run).Some? &&
    var child, parent := Successful(run).value, Parent(run).value;
    && child.digest != parent.digest
    && exists w | w in run.writes :: parent.sequence < w.request < w.response < child.sequence
  }

  predicate Informed(run: Run, e: Exchange) {
    Parent(run).Some? && BeforeSuccess(run, e.request) &&
    exists o | o in run.evaluations :: o.candidateId == Parent(run).value.id && o.visibleFailure && o.sequence < e.request
  }

  predicate FeedbackUsed(run: Run) {
    run.feedbackAllowed &&
    exists e, w | e in run.exchanges && w in run.writes ::
      Informed(run, e) && e.request < e.response < w.request < w.response && BeforeSuccess(run, w.response)
  }

  /** Every settled tool maps to one declared operation each, outside a brokered host, with bound requests. */
  predicate Isolated(run: Run) {
    && SelectedOperations(run.settled, run.operations) == |run.settled| != 0
    && !run.brokeredHost
    && run.securityBindings != [] && false !in run.securityBindings
  }

  function SelectedOperations(settled: seq<Settled>, operations: seq<(string, string)>): nat {
    if settled == [] then 0 else
    var n := |settled| - 1;
    SelectedOperations(settled[..n], operations) + multiset(operations)[(settled[n].capability, settled[n].tool)]
  }

  predicate SettledWith(run: Run, vendor: Vendor) {
    exists b | b in run.settled :: (b.tool, b.capability) in run.conformant && run.conformant[(b.tool, b.capability)] == vendor
  }

  predicate CheckpointTaken(run: Run) {
    exists e, c | e in run.checkpointResults && c in run.checkpoints ::
      e.request < c.sequence < e.response && BeforeSuccess(run, e.response)
  }

  /** The journal shows a complete recovery around this restart. */
  predicate Recovered(run: Run, r: Restart) {
    && (exists e, c | e in run.checkpointResults && c in run.checkpoints ::
          e.request < c.sequence < e.response < r.terminated < r.restored && c.id == r.checkpointId && c.manifest == r.manifest)
    && (exists e | e in run.exchanges :: r.restored < e.request < e.response)
    && (exists w | w in run.writes :: r.restored < w.request < w.response)
    && (exists b | b in run.settled :: r.restored < b.sequence)
    && Successful(run).Some?
    && (exists o | o in run.evaluations ::
          o.candidateId == Successful(run).value.id && r.restored < Successful(run).value.sequence < o.sequence)
  }

  function FirstRecovered(run: Run, restarts: seq<Restart>): Option<Restart> {
    if restarts == [] then None
    else if Recovered(run, restarts[0]) then Some(restarts[0])
    else FirstRecovered(run, restarts[1..])
  }

  function EvidenceOf(run: Run, r: Restart): RecoveryEvidence {
    RecoveryEvidence(r.checkpointId, r.manifest, r.terminated, r.restored, r.restoredManifest,
                     match Successful(run) case Some(c) => c.id case None => "")
  }

  /** The recovery a training trial proves, when its participant is running again at the end. */
  function Recovery(run: Run): Option<RecoveryEvidence> {
    if !run.training || !run.incarnationActive || run.terminationPending then None else
    match FirstRecovered(run, run.restarts)
    case Some(r) => Some(EvidenceOf(run, r))
    case None => None
  }

  /** What the requirements depend on. */
  datatype Facts = Facts(
    training: bool, changed: bool, feedbackUsed: bool, checkpointTaken: bool, recovered: bool,
    openSource: bool, commercial: bool, isolated: bool, verified: bool, retained: bool, atif: bool, report: bool)

  function FactsOf(run: Run): Facts {
    Facts(run.training, Changed(run), FeedbackUsed(run), CheckpointTaken(run), Recovery(run).Some?,
          SettledWith(run, OpenSource), SettledWith(run, Commercial), Isolated(run),
          Successful(run).Some? && run.verifierSucceeded && run.sourcesDisjoint,
          RETAINED <= run.artifacts, run.atif.Some?, run.report.Some?)
  }

  /** What a trial may say about each requirement.  No branch lets input isolation, the two tool requirements or the
      hidden verifier pass. */
  function Verdict(f: Facts, requirement: Requirement): Status {
    match requirement
    case TaskBreadth => Passed
    case CandidateChange => Stateful(f, f.changed)
    case ControlledFeedback => Stateful(f, f.feedbackUsed)
    case Checkpoint => Stateful(f, f.checkpointTaken)
    case ParticipantRecovery => Stateful(f, f.recovered)
    case OpenSourceEda => if f.openSource then Unavailable else Failed
    case CommercialEda => if f.commercial then Unavailable else Failed
    case EdaInputIsolation => if f.isolated then Unavailable else Failed
    case HiddenVerifier => if f.verified then Unavailable else Failed
    case ArtifactCommit => if f.retained then Passed else Failed
    case AtifProjection => if f.atif then Passed else Failed
    case ReportProjection => if f.report then Passed else Failed
  }

  function Stateful(f: Facts, proved: bool): Status {
    if !f.training then Unavailable else if proved then Passed else Failed
  }

  function With(f: Facts, status: Status): set<Requirement> {
    set r: Requirement | Verdict(f, r) == status
  }

  const TOOLS := {OpenSourceEda, CommercialEda, EdaInputIsolation}

  /** What only a training trial can prove, with the two requirements that start out unavailable. */
  method JudgeStateful(f: Facts) returns (failed: set<Requirement>, unavailable: set<Requirement>)
    ensures failed == With(f, Failed) * STATEFUL
    ensures unavailable == With(f, Unavailable) * STATEFUL + {ArtifactCommit, HiddenVerifier}
  {
    failed := {};
    unavailable := {ArtifactCommit, HiddenVerifier};
    if !f.training {
      unavailable := unavailable + STATEFUL;
    }
    if f.training && !f.changed {
      failed := failed + {CandidateChange};
    }
    if f.training && !f.feedbackUsed {
      failed := failed + {ControlledFeedback};
    }
    if f.training && !f.checkpointTaken {
      failed := failed + {Checkpoint};
    }
    if f.training && !f.recovered {
      failed := failed + {ParticipantRecovery};
    }
  }

  method JudgeTools(f: Facts) returns (failed: set<Requirement>, unavailable: set<Requirement>)
    ensures failed == With(f, Failed) * TOOLS && unavailable == With(f, Unavailable) * TOOLS
    ensures failed + unavailable == TOOLS
  {
    failed, unavailable := {}, {};
    if !f.isolated {
      failed := failed + {EdaInputIsolation};
    } else {
      unavailable := unavailable + {EdaInputIsolation};
    }
    if !f.openSource {
      failed := failed + {OpenSourceEda};
    } else {
      unavailable := unavailable + {OpenSourceEda};
    }
    if !f.commercial {
      failed := failed + {CommercialEda};
    } else {
      unavailable := unavailable + {CommercialEda};
    }
  }

  const RESULTS := {HiddenVerifier, ArtifactCommit, AtifProjection, ReportProjection}

  /** The verifier, the artifacts and the two projections; the first two leave the unavailable set again. */
  method JudgeResults(f: Facts, failedSoFar: set<Requirement>, unavailableSoFar: set<Requirement>)
    returns (failed: set<Requirement>, unavailable: set<Requirement>)
    requires unavailableSoFar * RESULTS == {ArtifactCommit, HiddenVerifier}
    ensures failed == failedSoFar + With(f, Failed) * RESULTS
    ensures unavailable == unavailableSoFar - RESULTS + With(f, Unavailable) * RESULTS
  {
    failed, unavailable := failedSoFar, unavailableSoFar;
    if !f.verified {
      failed := failed + {HiddenVerifier};
      unavailable := unavailable - {HiddenVerifier};
    }
    if !f.retained {
      failed := failed + {ArtifactCommit};
    }
    unavailable := unavailable - {ArtifactCommit};
    if !f.atif {
      failed := failed + {AtifProjection};
    }
    if !f.report {
      failed := failed + {ReportProjection};
    }
    forall q: Requirement | q in unavailableSoFar && q in RESULTS ensures q == ArtifactCommit || q == HiddenVerifier {
      assert q in unavailableSoFar * RESULTS;
    }
  }

  lemma Partition(f: Facts, status: Status)
    requires status != Passed
    ensures With(f, status) == With(f, status) * STATEFUL + With(f, status) * TOOLS + With(f, status) * RESULTS
    ensures TOOLS + {HiddenVerifier} <= With(f, Failed) + With(f, Unavailable)
    ensures With(f, Failed) !! With(f, Unavailable)
  {
    forall q: Requirement | q in With(f, status) ensures q in STATEFUL + TOOLS + RESULTS {
    }
  }

  /** The two sets as the projector grows and shrinks them: disjoint on every path, holding each requirement according
      to its verdict, and never free of the four that cannot pass. */
  method Judge(f: Facts) returns (failed: set<Requirement>, unavailable: set<Requirement>)
    ensures failed == With(f, Failed) && unavailable == With(f, Unavailable)
    ensures failed !! unavailable
    ensures TOOLS + {HiddenVerifier} <= failed + unavailable
  {
    failed, unavailable := JudgeStateful(f);
    var toolsFailed, toolsUnavailable := JudgeTools(f);
    failed, unavailable := failed + toolsFailed, unavailable + toolsUnavailable;
    assert STATEFUL * RESULTS == {} && TOOLS * RESULTS == {};
    ghost var before := unavailable;
    assert before == With(f, Unavailable) * STATEFUL + With(f, Unavailable) * TOOLS + {ArtifactCommit, HiddenVerifier};
    assert before * RESULTS == {ArtifactCommit, HiddenVerifier};
    failed, unavailable := JudgeResults(f, failed, unavailable);
    assert before - RESULTS == With(f, Unavailable) * STATEFUL + With(f, Unavailable) * TOOLS;
    Partition(f, Failed);
    Partition(f, Unavailable);
  }

  function CandidateIds(run: Run): seq<string> {
    seq(|run.candidates|, i requires 0 <= i < |run.candidates| => run.candidates[i].id)
  }

  function ToolIds(run: Run): seq<string> {
    seq(|run.settled|, i requires 0 <= i < |run.settled| => run.settled[i].tool)
  }

  function CheckpointIds(run: Run): seq<string> {
    seq(|run.checkpoints|, i requires 0 <= i < |run.checkpoints| => run.checkpoints[i].id)
  }

  function Projected(run: Run): Trial {
    var failed, unavailable := With(FactsOf(run), Failed), With(FactsOf(run), Unavailable);
    Trial(run.trialId, run.runId, run.kind, run.training, run.roleAdmitsCapability, Recovery(run),
          CandidateIds(run), ToolIds(run), CheckpointIds(run), run.artifacts, run.atif, run.report,
          failed, unavailable, Worst(failed != {}, unavailable != {}))
  }

  /** `_project_end_to_end_trial`, from the point where the sources have been replayed. */
  method ProjectTrial(run: Run) returns (r: Trial)
    ensures r == Projected(run)
    ensures r.failed !! r.unavailable
    ensures r.status != Passed
  {
    var recovery: Option<RecoveryEvidence> := None;
    if run.training {
      recovery := FindRecovery(run);
      if !run.incarnationActive || run.terminationPending {
        recovery := None;
      }
    }
    assert recovery == Recovery(run);
    var facts := FactsOf(run);
    var failed, unavailable := Judge(facts);
    assert EdaInputIsolation in TOOLS;
    r := Trial(run.trialId, run.runId, run.kind, run.training, run.roleAdmitsCapability, recovery,
               CandidateIds(run), ToolIds(run), CheckpointIds(run), run.artifacts, run.atif, run.report,
               failed, unavailable, Worst(failed != {}, unavailable != {}));
  }

  /** The first restart that the journal fully supports. */
  method FindRecovery(run: Run) returns (r: Option<RecoveryEvidence>)
    ensures r == match FirstRecovered(run, run.restarts) case Some(s) => Some(EvidenceOf(run, s)) case None => None
  {
    for i := 0 to |run.restarts|
      invariant FirstRecovered(run, run.restarts) == FirstRecovered(run, run.restarts[i..])
    {
      if Recovered(run, run.restarts[i]) {
        return Some(EvidenceOf(run, run.restarts[i]));
      }
    }
    r := None;
  }

  // ---------------------------------------------------------------------------
  // The validator
  // ---------------------------------------------------------------------------

  predicate Unique(ids: seq<string>) {
    forall i, j | 0 <= i < j < |ids| :: ids[i] != ids[j]
  }

  predicate PassedIn(t: Trial, r: Requirement) {
    r !in t.failed && r !in t.unavailable
  }

  /** Every clause of the evidence record. */
  predicate ValidTrial(t: Trial) {
    && t.candidateIds != [] && Unique(t.candidateIds) && Unique(t.toolIds) && Unique(t.checkpointIds)
    && t.roleAdmitsCapability
    && t.failed !! t.unavailable
    && (t.atif.Some? <==> PassedIn(t, AtifProjection))
    && (t.report.Some? <==> PassedIn(t, ReportProjection))
    && (PassedIn(t, CandidateChange) ==> |t.candidateIds| >= 2)
    && (PassedIn(t, Checkpoint) ==> t.checkpointIds != [])
    && (PassedIn(t, ArtifactCommit) ==> RETAINED <= t.artifacts)
    && (!t.training ==> STATEFUL <= t.unavailable)
    && (t.recovery.Some? <==> t.training && PassedIn(t, ParticipantRecovery))
    && (t.recovery.Some? ==>
          && t.recovery.value.terminated < t.recovery.value.restored
          && t.recovery.value.restoredManifest == t.recovery.value.manifest
          && t.recovery.value.candidateId in t.candidateIds
          && t.recovery.value.checkpointId in t.checkpointIds)
    && (PassedIn(t, OpenSourceEda) || PassedIn(t, CommercialEda) || PassedIn(t, EdaInputIsolation) ==> t.toolIds != [])
    && t.status == Worst(t.failed != {}, t.unavailable != {})
  }

  lemma {:induction false} FirstRecoveredHolds(run: Run, restarts: seq<Restart>)
    ensures var r := FirstRecovered(run, restarts); r.Some? ==> r.value in restarts && Recovered(run, r.value)
  {
    if restarts != [] && !Recovered(run, restarts[0]) {
      FirstRecoveredHolds(run, restarts[1..]);
    }
  }

  /** A change of candidate involves two candidates. */
  lemma ChangeNeedsTwo(run: Run)
    requires Changed(run)
    ensures |run.candidates| >= 2
  {
    var child, parent := Successful(run).value, Parent(run).value;
    var i :| 0 <= i < |run.candidates| && run.candidates[i] == child;
    var j :| 0 <= j < |run.candidates| && run.candidates[j] == parent;
    assert i != j;
  }

  /** The clauses that hold of every projected record. */
  lemma ProjectedClauses(run: Run)
    ensures var t := Projected(run);
            && t.failed !! t.unavailable
            && (t.atif.Some? <==> PassedIn(t, AtifProjection)) && (t.report.Some? <==> PassedIn(t, ReportProjection))
            && (PassedIn(t, ArtifactCommit) ==> RETAINED <= t.artifacts)
            && !PassedIn(t, OpenSourceEda) && !PassedIn(t, CommercialEda) && !PassedIn(t, EdaInputIsolation)
  {
    VerdictIsRecorded(run);
  }

  lemma IdentityClauses(run: Run)
    ensures var t := Projected(run);
            && (PassedIn(t, CandidateChange) ==> |t.candidateIds| >= 2)
            && (PassedIn(t, Checkpoint) ==> t.checkpointIds != [])
  {
    VerdictIsRecorded(run);
    if Changed(run) {
      ChangeNeedsTwo(run);
    }
    if CheckpointTaken(run) {
      var e, c :| e in run.checkpointResults && c in run.checkpoints && e.request < c.sequence < e.response && BeforeSuccess(run, e.response);
    }
  }

  lemma RecoveryClauses(run: Run)
    ensures var t := Projected(run);
            && (!t.training ==> STATEFUL <= t.unavailable)
            && (t.recovery.Some? <==> t.training && PassedIn(t, ParticipantRecovery))
            && (t.recovery.Some? ==>
                  && t.recovery.value.terminated < t.recovery.value.restored
                  && t.recovery.value.restoredManifest == t.recovery.value.manifest
                  && t.recovery.value.candidateId in t.candidateIds
                  && t.recovery.value.checkpointId in t.checkpointIds)
  {
    VerdictIsRecorded(run);
    if Recovery(run).Some? {
      FirstRecoveredHolds(run, run.restarts);
      RecoveryNamesItsTrial(run, FirstRecovered(run, run.restarts).value);
    }
  }

  /** The record is accepted by its own validator if and only if the identifiers it copies are unique, there is a
      candidate and the role admits the capability. */
  lemma ProjectedIsValid(run: Run)
    ensures var t := Projected(run);
            ValidTrial(t) <==>
            && run.candidates != [] && Unique(t.candidateIds) && Unique(t.toolIds) && Unique(t.checkpointIds)
            && run.roleAdmitsCapability
  {
    ProjectedClauses(run);
    IdentityClauses(run);
    RecoveryClauses(run);
  }

  /** A run that settles the same tool twice is projected into a record its validator refuses. */
  lemma RepeatedToolRefused(run: Run, i: nat, j: nat)
    requires i < j < |run.settled| && run.settled[i].tool == run.settled[j].tool
    ensures !ValidTrial(Projected(run))
  {
    assert ToolIds(run)[i] == ToolIds(run)[j];
  }

  lemma VerdictIsRecorded(run: Run)
    ensures var t := Projected(run);
            forall r: Requirement ::
              && (r in t.failed <==> Verdict(FactsOf(run), r) == Failed)
              && (r in t.unavailable <==> Verdict(FactsOf(run), r) == Unavailable)
              && (PassedIn(t, r) <==> Verdict(FactsOf(run), r) == Passed)
  {
  }

  lemma RecoveryNamesItsTrial(run: Run, r: Restart)
    requires Recovered(run, r)
    ensures var t, e := Projected(run), EvidenceOf(run, r);
            e.terminated < e.restored && e.candidateId in t.candidateIds && e.checkpointId in t.checkpointIds
  {
    var t := Projected(run);
    var e, c :| e in run.checkpointResults && c in run.checkpoints
                && e.request < c.sequence < e.response < r.terminated < r.restored && c.id == r.checkpointId && c.manifest == r.manifest;
    var i :| 0 <= i < |run.checkpoints| && run.checkpoints[i] == c;
    assert t.checkpointIds[i] == r.checkpointId;
    var child := Successful(run).value;
    var j :| 0 <= j < |run.candidates| && run.candidates[j] == child;
    assert t.candidateIds[j] == child.id;
  }
}
