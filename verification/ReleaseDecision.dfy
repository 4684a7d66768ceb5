/** From trials to the smoke summary, the campaign suite and the release decision. */
module ReleaseDecision {
  import opened Wrappers
  import opened ReleaseEvidence
  import opened ReleaseTrial

  /** The enumeration order of the requirements. */
  const REQUIREMENTS := [
    TaskBreadth, CandidateChange, OpenSourceEda, CommercialEda, EdaInputIsolation, ControlledFeedback,
    Checkpoint, ParticipantRecovery, HiddenVerifier, ArtifactCommit, AtifProjection, ReportProjection]

  datatype Smoke = Smoke(
    trainingRun: Option<string>, tools: set<string>, failed: set<Requirement>, unavailable: set<Requirement>, status: Status)

  function RequirementStatus(t: Trial, r: Requirement): Status {
    if r in t.failed then Failed else if r in t.unavailable then Unavailable else Passed
  }

  predicate SomeTrial(trials: seq<Trial>, r: Requirement, status: Status) {
    exists i | 0 <= i < |trials| :: RequirementStatus(trials[i], r) == status
  }

  function TrainingTrials(trials: seq<Trial>): seq<Trial> {
    if trials == [] then []
    else if trials[0].training then [trials[0]] + TrainingTrials(trials[1..])
    else TrainingTrials(trials[1..])
  }

  /** The one stateful trial, if there is exactly one. */
  function TrainingTrial(trials: seq<Trial>): Option<Trial> {
    var stateful := TrainingTrials(trials);
    if |stateful| == 1 then Some(stateful[0]) else None
  }

  predicate HasBreadth(trials: seq<Trial>) {
    && (exists i | 0 <= i < |trials| :: trials[i].kind == RtlGeneration)
    && (exists i | 0 <= i < |trials| :: trials[i].kind == SynthesisTiming)
    && (exists i | 0 <= i < |trials| :: trials[i].kind == LongFlow)
  }

  /** What a set of trials says about a requirement: the training trial alone for stateful ones, the best trial for the
      two tool requirements, the worst for the rest. */
  function Rollup(trials: seq<Trial>, r: Requirement): Status {
    if r == TaskBreadth then
      if TrainingTrial(trials).Some? && HasBreadth(trials) then Passed else Failed
    else if r in STATEFUL then
      match TrainingTrial(trials) case Some(t) => RequirementStatus(t, r) case None => Failed
    else if r == OpenSourceEda || r == CommercialEda then
      if SomeTrial(trials, r, Passed) then Passed else if SomeTrial(trials, r, Unavailable) then Unavailable else Failed
    else Worst(SomeTrial(trials, r, Failed), SomeTrial(trials, r, Unavailable))
  }

  function ToolsOf(trials: seq<Trial>): set<string> {
    set i, tool | 0 <= i < |trials| && tool in trials[i].toolIds :: tool
  }

  function Summary(trials: seq<Trial>): Smoke {
    var failed := set r: Requirement | Rollup(trials, r) == Failed;
    var unavailable := set r: Requirement | Rollup(trials, r) == Unavailable;
    Smoke(match TrainingTrial(trials) case Some(t) => Some(t.runId) case None => None,
          ToolsOf(trials), failed, unavailable, Worst(failed != {}, unavailable != {}))
  }

  lemma AllListed(r: Requirement)
    ensures r in REQUIREMENTS
  {
    assert REQUIREMENTS[0] == TaskBreadth && REQUIREMENTS[1] == CandidateChange && REQUIREMENTS[2] == OpenSourceEda
        && REQUIREMENTS[3] == CommercialEda && REQUIREMENTS[4] == EdaInputIsolation && REQUIREMENTS[5] == ControlledFeedback
        && REQUIREMENTS[6] == Checkpoint && REQUIREMENTS[7] == ParticipantRecovery && REQUIREMENTS[8] == HiddenVerifier
        && REQUIREMENTS[9] == ArtifactCommit && REQUIREMENTS[10] == AtifProjection && REQUIREMENTS[11] == ReportProjection;
  }

  /** One turn of the roll-up loop. */
  method Classify(trials: seq<Trial>, training: Option<Trial>, r: Requirement) returns (status: Status)
    requires training == TrainingTrial(trials)
    ensures status == Rollup(trials, r)
  {
    if r == TaskBreadth {
      return if training.None? || !HasBreadth(trials) then Failed else Passed;
    }
    if r in STATEFUL {
      return if training.None? then Failed else RequirementStatus(training.value, r);
    }
    var passed, failed, unavailable := false, false, false;
    for i := 0 to |trials|
      invariant passed <==> exists k | 0 <= k < i :: RequirementStatus(trials[k], r) == Passed
      invariant failed <==> exists k | 0 <= k < i :: RequirementStatus(trials[k], r) == Failed
      invariant unavailable <==> exists k | 0 <= k < i :: RequirementStatus(trials[k], r) == Unavailable
    {
      match RequirementStatus(trials[i], r) {
        case Passed => passed := true;
        case Failed => failed := true;
        case Unavailable => unavailable := true;
      }
    }
    if r == OpenSourceEda || r == CommercialEda {
      return if passed then Passed else if unavailable then Unavailable else Failed;
    }
    status := if failed then Failed else if unavailable then Unavailable else Passed;
  }

  /** `_aggregate_trial_evidence` */
  method Aggregate(trials: seq<Trial>) returns (r: Smoke)
    ensures r == Summary(trials)
    ensures r.failed !! r.unavailable
  {
    var failed: set<Requirement>, unavailable: set<Requirement> := {}, {};
    var stateful := TrainingTrials(trials);
    var training := if |stateful| == 1 then Some(stateful[0]) else None;
    for i := 0 to |REQUIREMENTS|
      invariant forall q :: q in failed <==> q in REQUIREMENTS[..i] && Rollup(trials, q) == Failed
      invariant forall q :: q in unavailable <==> q in REQUIREMENTS[..i] && Rollup(trials, q) == Unavailable
    {
      var status := Classify(trials, training, REQUIREMENTS[i]);
      if status == Failed {
        failed := failed + {REQUIREMENTS[i]};
      } else if status == Unavailable {
        unavailable := unavailable + {REQUIREMENTS[i]};
      }
      assert REQUIREMENTS[..i + 1] == REQUIREMENTS[..i] + [REQUIREMENTS[i]];
    }
    assert REQUIREMENTS[..|REQUIREMENTS|] == REQUIREMENTS;
    forall q: Requirement ensures q in REQUIREMENTS {
      AllListed(q);
    }
    assert failed == Summary(trials).failed && unavailable == Summary(trials).unavailable;
    r := Smoke(if training.Some? then Some(training.value.runId) else None, ToolsOf(trials), failed, unavailable,
               Worst(failed != {}, unavailable != {}));
  }

  // ---------------------------------------------------------------------------
  // The summary does not depend on the order of its trials
  // ---------------------------------------------------------------------------

  lemma {:induction false} TrainingCounts(trials: seq<Trial>, t: Trial)
    ensures multiset(TrainingTrials(trials))[t] == if t.training then multiset(trials)[t] else 0
  {
    if trials != [] {
      TrainingCounts(trials[1..], t);
      assert trials == [trials[0]] + trials[1..];
    }
  }

  lemma TrainingIgnoresOrder(a: seq<Trial>, b: seq<Trial>)
    requires multiset(a) == multiset(b)
    ensures TrainingTrial(a) == TrainingTrial(b)
  {
    forall t ensures multiset(TrainingTrials(a))[t] == multiset(TrainingTrials(b))[t] {
      TrainingCounts(a, t);
      TrainingCounts(b, t);
    }
    var x, y := TrainingTrials(a), TrainingTrials(b);
    assert multiset(x) == multiset(y);
    assert |x| == |multiset(x)| && |y| == |multiset(y)|;
    if |x| == 1 {
      assert x[0] in multiset(y);
    }
  }

  lemma SameMembers(a: seq<Trial>, b: seq<Trial>, i: nat)
    requires multiset(a) == multiset(b) && i < |a|
    ensures exists j :: 0 <= j < |b| && b[j] == a[i]
  {
    assert a[i] in multiset(b);
  }

  lemma OneWay(a: seq<Trial>, b: seq<Trial>)
    requires multiset(a) == multiset(b)
    ensures forall r, status :: SomeTrial(a, r, status) ==> SomeTrial(b, r, status)
    ensures HasBreadth(a) ==> HasBreadth(b)
    ensures ToolsOf(a) <= ToolsOf(b)
  {
    forall i | 0 <= i < |a| ensures exists j :: 0 <= j < |b| && b[j] == a[i] {
      SameMembers(a, b, i);
    }
  }

  /** The record sorts its trials and recomputes the summary: it finds the one the projector stored. */
  lemma SummaryIgnoresOrder(a: seq<Trial>, b: seq<Trial>)
    requires multiset(a) == multiset(b)
    ensures Summary(a) == Summary(b)
  {
    TrainingIgnoresOrder(a, b);
    OneWay(a, b);
    OneWay(b, a);
    forall r: Requirement ensures Rollup(a, r) == Rollup(b, r) {
      assert forall status :: SomeTrial(a, r, status) <==> SomeTrial(b, r, status);
    }
  }

  // ---------------------------------------------------------------------------
  // Never ready
  // ---------------------------------------------------------------------------

  /** The four requirements no projected trial passes. */
  lemma ProjectedNeverPasses(run: Run, r: Requirement)
    requires r in TOOLS + {HiddenVerifier}
    ensures RequirementStatus(Projected(run), r) != Passed
    ensures (r in Projected(run).failed) != (r in Projected(run).unavailable)
  {
    VerdictIsRecorded(run);
  }

  function ProjectedTrials(runs: seq<Run>): seq<Trial> {
    seq(|runs|, i requires 0 <= i < |runs| => Projected(runs[i]))
  }

  /** Whatever runs were recorded, and however many, the smoke summary is not PASSED: input isolation keeps it from
      passing when there is a trial, and task breadth when there is none. */
  lemma SmokeNeverPasses(runs: seq<Run>)
    ensures var s := Summary(ProjectedTrials(runs)); s.status != Passed && s.failed !! s.unavailable
    ensures runs != [] ==>
              forall r | r in TOOLS + {HiddenVerifier} ::
                r in Summary(ProjectedTrials(runs)).failed + Summary(ProjectedTrials(runs)).unavailable
  {
    var trials := ProjectedTrials(runs);
    if runs == [] {
      assert trials == [] && Rollup(trials, TaskBreadth) == Failed;
      assert TaskBreadth in Summary(trials).failed;
    } else {
      forall r | r in TOOLS + {HiddenVerifier}
        ensures r in Summary(trials).failed + Summary(trials).unavailable
      {
        forall i | 0 <= i < |trials| ensures RequirementStatus(trials[i], r) != Passed {
          ProjectedNeverPasses(runs[i], r);
        }
        RollupBlocked(trials, r);
      }
      assert EdaInputIsolation in TOOLS + {HiddenVerifier};
      assert EdaInputIsolation in Summary(trials).failed + Summary(trials).unavailable;
    }
  }

  /** A requirement that no trial passes is recorded against the summary. */
  lemma RollupBlocked(trials: seq<Trial>, r: Requirement)
    requires trials != [] && r in TOOLS + {HiddenVerifier}
    requires forall i | 0 <= i < |trials| :: RequirementStatus(trials[i], r) != Passed
    ensures r in Summary(trials).failed + Summary(trials).unavailable
  {
    assert SomeTrial(trials, r, RequirementStatus(trials[0], r));
    assert !SomeTrial(trials, r, Passed);
    assert Rollup(trials, r) != Passed;
  }

  datatype Scope = EndToEndSmoke | ModelComparisonPilot | CommonCore | ReasoningEffortSensitivity | OtherScope

  datatype Campaign = Campaign(
    scope: Scope, status: Status, smoke: Option<Smoke>, comparison: string, controlled: string, modelSet: string,
    discovery: string, providerId: string, providerProfile: string, providerConfig: string, routes: seq<string>,
    tasks: map<string, string>, seeds: seq<string>, efforts: seq<string>)

  /** The provider profile that every required campaign must have used. */
  datatype Profile = Profile(digest: string, logicalId: string)

  predicate Within<T(==)>(a: seq<T>, b: seq<T>) {
    forall x | x in a :: x in b
  }

  /** Pilot, common core and sensitivity vary only in what they compare. */
  predicate Comparable(pilot: Campaign, core: Campaign, sensitivity: Campaign) {
    && pilot.comparison == core.comparison
    && pilot.controlled == core.controlled == sensitivity.controlled
    && pilot.modelSet == core.modelSet == sensitivity.modelSet
    && pilot.discovery == core.discovery == sensitivity.discovery
    && pilot.providerProfile == core.providerProfile == sensitivity.providerProfile
    && pilot.providerConfig == core.providerConfig == sensitivity.providerConfig
    && pilot.routes == core.routes && Within(sensitivity.routes, pilot.routes)
    && pilot.tasks == core.tasks && sensitivity.tasks.Items <= core.tasks.Items
    && pilot.seeds == sensitivity.seeds && Within(pilot.seeds, core.seeds)
    && Within(core.efforts, sensitivity.efforts)
  }

  const REQUIRED_SCOPES := {EndToEndSmoke, ModelComparisonPilot, CommonCore, ReasoningEffortSensitivity}

  /** A dictionary by scope: the last campaign of a scope wins. */
  function ByScope(campaigns: seq<Campaign>): (m: map<Scope, Campaign>)
    ensures forall s | s in m :: m[s] in campaigns && m[s].scope == s
  {
    if campaigns == [] then map[] else
    ByScope(campaigns[..|campaigns| - 1])[campaigns[|campaigns| - 1].scope := campaigns[|campaigns| - 1]]
  }

  /** `_campaign_suite_status` */
  function SuiteStatus(campaigns: seq<Campaign>, profile: Profile): Status {
    StatusByScope(ByScope(campaigns), profile)
  }

  function StatusByScope(m: map<Scope, Campaign>, profile: Profile): Status {
    if !(REQUIRED_SCOPES <= m.Keys) then Unavailable
    else if exists s | s in REQUIRED_SCOPES :: m[s].status == Failed then Failed
    else if exists s | s in REQUIRED_SCOPES :: m[s].status == Unavailable then Unavailable
    else
      match m[EndToEndSmoke].smoke
      case None => Unavailable
      case Some(smoke) =>
        if smoke.status != Passed then smoke.status
        else if !Comparable(m[ModelComparisonPilot], m[CommonCore], m[ReasoningEffortSensitivity]) then Failed
        else if exists s | s in REQUIRED_SCOPES ::
          m[s].providerProfile != profile.digest || m[s].providerId != profile.logicalId then Failed
        else Passed
  }

  datatype Decision = Blocked | Incomplete | Ready

  function DecisionFor(counts: Counts): Decision {
    if counts.failed != 0 then Blocked else if counts.unavailable != 0 then Incomplete else Ready
  }

  /** The evidence of a report outside the campaigns. */
  datatype Sources = Sources(
    authoring: Status, backendCoverage: seq<Status>, flows: seq<Status>, participantModes: Status, repository: Status,
    privateRoots: Status, durableExecutor: Status, commands: seq<Status>)

  function SourceStatuses(sources: Sources, suite: Status): seq<Status> {
    [sources.authoring, StatusOf(CountsOf(sources.backendCoverage)), StatusOf(CountsOf(sources.flows)), suite,
     sources.participantModes, sources.repository, sources.privateRoots, sources.durableExecutor,
     StatusOf(CountsOf(sources.commands))]
  }

  datatype Report = Report(sources: Sources, campaigns: seq<Campaign>, profile: Profile, counts: Counts, decision: Decision)

  /** `build_release_report`, where each smoke campaign's evidence has been projected. */
  function BuildReport(sources: Sources, campaigns: seq<Campaign>, profile: Profile): Report {
    var counts := CountsOf(SourceStatuses(sources, SuiteStatus(campaigns, profile)));
    Report(sources, campaigns, profile, counts, DecisionFor(counts))
  }

  /** The report's own clauses on counts and decision. */
  predicate ValidDecision(r: Report) {
    var statuses := SourceStatuses(r.sources, SuiteStatus(r.campaigns, r.profile));
    && r.counts == CountsOf(statuses)
    && r.counts.total == r.counts.passed + r.counts.failed + r.counts.unavailable
    && r.decision == DecisionFor(r.counts)
  }

  /** Every campaign carries either no smoke evidence or evidence the projector made from some runs. */
  ghost predicate FromRuns(campaigns: seq<Campaign>) {
    forall i | 0 <= i < |campaigns| && campaigns[i].smoke.Some? ::
      exists runs :: campaigns[i].smoke.value == Summary(ProjectedTrials(runs))
  }

  lemma SuiteNeverPasses(campaigns: seq<Campaign>, profile: Profile)
    requires FromRuns(campaigns)
    ensures SuiteStatus(campaigns, profile) != Passed
  {
    var m := ByScope(campaigns);
    if EndToEndSmoke in m && m[EndToEndSmoke].smoke.Some? {
      var i :| 0 <= i < |campaigns| && campaigns[i] == m[EndToEndSmoke];
      var runs :| campaigns[i].smoke.value == Summary(ProjectedTrials(runs));
      SmokeNeverPasses(runs);
    }
  }

  /** READY means that every source passed, and the other decisions name the worst source. */
  lemma DecisionIsWorst(statuses: seq<Status>)
    ensures DecisionFor(CountsOf(statuses)) ==
            if Failed in statuses then Blocked else if Unavailable in statuses then Incomplete else Ready
  {
    CountOfPositive(statuses, Failed);
    CountOfPositive(statuses, Unavailable);
  }

  /** No report assembled from projected evidence is READY, whatever the other sources say; and it always satisfies
      the clauses that recompute its counts and its decision. */
  lemma ReportNeverReady(sources: Sources, campaigns: seq<Campaign>, profile: Profile)
    requires FromRuns(campaigns)
    ensures BuildReport(sources, campaigns, profile).decision != Ready
    ensures ValidDecision(BuildReport(sources, campaigns, profile))
  {
    SuiteNeverPasses(campaigns, profile);
    SuiteDecides(sources, SuiteStatus(campaigns, profile));
    CountsSummarize(SourceStatuses(sources, SuiteStatus(campaigns, profile)));
  }

  lemma SuiteDecides(sources: Sources, suite: Status)
    requires suite != Passed
    ensures DecisionFor(CountsOf(SourceStatuses(sources, suite))) != Ready
  {
    var statuses := SourceStatuses(sources, suite);
    DecisionIsWorst(statuses);
    assert statuses[3] == suite;
    assert suite in statuses;
  }

  // ---------------------------------------------------------------------------
  // One failure blocks
  // ---------------------------------------------------------------------------

  /** A failed source blocks the release, whatever the others say; with none failed, a missing one leaves it incomplete. */
  lemma FailedSourceBlocks(sources: Sources, campaigns: seq<Campaign>, profile: Profile)
    ensures var suite, decision := SuiteStatus(campaigns, profile), BuildReport(sources, campaigns, profile).decision;
            var failed := || sources.authoring == Failed || Failed in sources.backendCoverage || Failed in sources.flows
                          || suite == Failed || sources.participantModes == Failed || sources.repository == Failed
                          || sources.privateRoots == Failed || sources.durableExecutor == Failed || Failed in sources.commands;
            && (decision == Blocked <==> failed)
            && (decision == Ready ==> && sources.authoring == Passed && suite == Passed && sources.repository == Passed
                                      && Unavailable !in sources.commands && Unavailable !in sources.flows)
  {
    var suite := SuiteStatus(campaigns, profile);
    var statuses := SourceStatuses(sources, suite);
    CountsSummarize(sources.backendCoverage);
    CountsSummarize(sources.flows);
    CountsSummarize(sources.commands);
    DecisionIsWorst(statuses);
    AmongNine(statuses, Failed);
    AmongNine(statuses, Unavailable);
  }

  lemma AmongNine(s: seq<Status>, x: Status)
    requires |s| == 9
    ensures x in s <==> || s[0] == x || s[1] == x || s[2] == x || s[3] == x || s[4] == x || s[5] == x || s[6] == x || s[7] == x
                        || s[8] == x
  {
    if x in s {
      var i :| 0 <= i < |s| && s[i] == x;
      assert i == 0 || i == 1 || i == 2 || i == 3 || i == 4 || i == 5 || i == 6 || i == 7 || i == 8;
    }
  }

  /** With one campaign of each required scope: a failed one fails the suite, else a missing result or missing smoke
      evidence leaves it unavailable, else smoke evidence that is not PASSED decides, and what is left passes only if the
      campaigns are comparable and used the required provider. */
  lemma SuiteMeans(smoke: Campaign, pilot: Campaign, core: Campaign, sensitivity: Campaign, profile: Profile)
    requires smoke.scope == EndToEndSmoke && pilot.scope == ModelComparisonPilot && core.scope == CommonCore
    requires sensitivity.scope == ReasoningEffortSensitivity
    ensures var status := SuiteStatus([smoke, pilot, core, sensitivity], profile);
            && (smoke.status == Failed || pilot.status == Failed || core.status == Failed || sensitivity.status == Failed ==> status == Failed)
            && (status == Passed ==>
                  && smoke.status == Passed && pilot.status == Passed && core.status == Passed && sensitivity.status == Passed
                  && smoke.smoke.Some? && smoke.smoke.value.status == Passed
                  && smoke.providerProfile == profile.digest && pilot.providerProfile == profile.digest
                  && core.providerProfile == profile.digest && sensitivity.providerProfile == profile.digest
                  && pilot.routes == core.routes && pilot.tasks == core.tasks && pilot.seeds == sensitivity.seeds
                  && pilot.modelSet == core.modelSet == sensitivity.modelSet && pilot.comparison == core.comparison
                  && Within(sensitivity.routes, pilot.routes) && Within(core.efforts, sensitivity.efforts))
  {
    FourScopes(smoke, pilot, core, sensitivity);
    FourMean(smoke, pilot, core, sensitivity, profile);
  }

  lemma FourMean(smoke: Campaign, pilot: Campaign, core: Campaign, sensitivity: Campaign, profile: Profile)
    ensures var m := map[EndToEndSmoke := smoke, ModelComparisonPilot := pilot, CommonCore := core, ReasoningEffortSensitivity := sensitivity];
            var status := StatusByScope(m, profile);
            && (smoke.status == Failed || pilot.status == Failed || core.status == Failed || sensitivity.status == Failed ==> status == Failed)
            && (status == Passed ==>
                  && smoke.status == Passed && pilot.status == Passed && core.status == Passed && sensitivity.status == Passed
                  && smoke.smoke.Some? && smoke.smoke.value.status == Passed && Comparable(pilot, core, sensitivity)
                  && smoke.providerProfile == profile.digest && pilot.providerProfile == profile.digest
                  && core.providerProfile == profile.digest && sensitivity.providerProfile == profile.digest)
  {
    var m := map[EndToEndSmoke := smoke, ModelComparisonPilot := pilot, CommonCore := core, ReasoningEffortSensitivity := sensitivity];
    assert m[EndToEndSmoke] == smoke && m[ModelComparisonPilot] == pilot && m[CommonCore] == core && m[ReasoningEffortSensitivity] == sensitivity;
    assert EndToEndSmoke in REQUIRED_SCOPES && ModelComparisonPilot in REQUIRED_SCOPES && CommonCore in REQUIRED_SCOPES
        && ReasoningEffortSensitivity in REQUIRED_SCOPES;
  }

  lemma FourScopes(a: Campaign, b: Campaign, c: Campaign, d: Campaign)
    requires a.scope == EndToEndSmoke && b.scope == ModelComparisonPilot && c.scope == CommonCore
    requires d.scope == ReasoningEffortSensitivity
    ensures ByScope([a, b, c, d]) == map[EndToEndSmoke := a, ModelComparisonPilot := b, CommonCore := c, ReasoningEffortSensitivity := d]
  {
    assert [a, b, c, d][..3] == [a, b, c] && [a, b, c][..2] == [a, b] && [a, b][..1] == [a] && [a][..0] == [];
    assert ByScope([a]) == map[EndToEndSmoke := a];
    assert ByScope([a, b]) == map[EndToEndSmoke := a, ModelComparisonPilot := b];
    assert ByScope([a, b, c]) == map[EndToEndSmoke := a, ModelComparisonPilot := b, CommonCore := c];
  }

  /** How trials roll up: a requirement that any trial fails fails the smoke summary unless it is one of the two tools,
      for which the best trial counts, or a stateful one, for which only the training trial does. */
  lemma RollupMeans(trials: seq<Trial>, i: nat, r: Requirement)
    requires i < |trials|
    ensures r in {EdaInputIsolation, HiddenVerifier, ArtifactCommit, AtifProjection, ReportProjection} && r in trials[i].failed ==>
              r in Summary(trials).failed && Summary(trials).status == Failed
    ensures r in {OpenSourceEda, CommercialEda} && r !in trials[i].failed && r !in trials[i].unavailable ==>
              r !in Summary(trials).failed && r !in Summary(trials).unavailable
    ensures r in {CandidateChange, ControlledFeedback, Checkpoint, ParticipantRecovery} && TrainingTrials(trials) == [trials[i]] ==>
              (r in Summary(trials).failed <==> RequirementStatus(trials[i], r) == Failed)
  {
    assert SomeTrial(trials, r, RequirementStatus(trials[i], r));
  }
}
