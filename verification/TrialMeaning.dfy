/** What a projected trial says about a run, in terms of the run's own events. */
module TrialMeaning {
  import opened Wrappers
  import opened ReleaseEvidence
  import opened ReleaseTrial

  // ---------------------------------------------------------------------------
  // Candidates by identifier
  // ---------------------------------------------------------------------------

  /** The last candidate submitted under an identifier. */
  predicate Latest(candidates: seq<Candidate>, i: nat, id: string) {
    i < |candidates| && candidates[i].id == id && forall k | i < k < |candidates| :: candidates[k].id != id
  }

  ghost predicate Named(candidates: seq<Candidate>, id: Option<string>, c: Candidate) {
    id.Some? && exists i: nat :: Latest(candidates, i, id.value) && candidates[i] == c
  }

  lemma {:induction false} LatestIsFound(candidates: seq<Candidate>, i: nat, id: string)
    requires Latest(candidates, i, id)
    ensures Lookup(candidates, Some(id)) == Some(candidates[i])
  {
    if i < |candidates| - 1 {
      assert candidates[|candidates| - 1].id != id;
      LatestIsFound(candidates[..|candidates| - 1], i, id);
    }
  }

  lemma {:induction false} FoundIsLatest(candidates: seq<Candidate>, id: string) returns (i: nat)
    requires Lookup(candidates, Some(id)).Some?
    ensures Latest(candidates, i, id) && candidates[i] == Lookup(candidates, Some(id)).value
  {
    i := |candidates| - 1;
    if candidates[i].id != id {
      i := FoundIsLatest(candidates[..i], id);
    }
  }

  lemma LookupIsLatest(candidates: seq<Candidate>, id: Option<string>, c: Candidate)
    ensures Lookup(candidates, id) == Some(c) <==> Named(candidates, id, c)
  {
    if Lookup(candidates, id) == Some(c) {
      var i := FoundIsLatest(candidates, id.value);
    }
    if Named(candidates, id, c) {
      var i: nat :| Latest(candidates, i, id.value) && candidates[i] == c;
      LatestIsFound(candidates, i, id.value);
    }
  }

  /** `c` is the candidate that succeeded, and `p` the one it was derived from. */
  ghost predicate Won(run: Run, c: Candidate) {
    Named(run.candidates, run.successful, c)
  }

  ghost predicate Derived(run: Run, c: Candidate, p: Candidate) {
    Won(run, c) && Named(run.candidates, c.parent, p)
  }

  lemma WinnerFound(run: Run, c: Candidate, p: Candidate)
    ensures Successful(run) == Some(c) <==> Won(run, c)
    ensures Successful(run) == Some(c) && Parent(run) == Some(p) <==> Derived(run, c, p)
  {
    LookupIsLatest(run.candidates, run.successful, c);
    LookupIsLatest(run.candidates, c.parent, p);
  }

  // ---------------------------------------------------------------------------
  // Stateful requirements
  // ---------------------------------------------------------------------------

  /** A write of another content between parent and child. */
  ghost predicate ChangeShown(run: Run, c: Candidate, p: Candidate, w: Exchange) {
    Derived(run, c, p) && c.digest != p.digest && w in run.writes && p.sequence < w.request < w.response < c.sequence
  }

  /** The parent visibly failed, the participant asked the provider afterwards, and wrote before the child. */
  ghost predicate FeedbackShown(run: Run, c: Candidate, p: Candidate, o: Evaluation, e: Exchange, w: Exchange) {
    && Derived(run, c, p) && o in run.evaluations && o.candidateId == p.id && o.visibleFailure
    && e in run.exchanges && w in run.writes
    && o.sequence < e.request < e.response < w.request < w.response < c.sequence
  }

  /** A checkpoint committed within its request, before any success. */
  ghost predicate CheckpointShown(run: Run, e: Exchange, k: CommittedCheckpoint) {
    && e in run.checkpointResults && k in run.checkpoints && e.request < k.sequence < e.response
    && forall c | Won(run, c) :: e.response < c.sequence
  }

  /** Everything around one restart: the checkpoint it used before, and a provider exchange, a write, a settled tool and
      the evaluated winner after. */
  ghost predicate RecoveryShown(run: Run, r: Restart, c: Candidate) {
    && r in run.restarts && Won(run, c)
    && (exists e, k :: e in run.checkpointResults && k in run.checkpoints && k.id == r.checkpointId && k.manifest == r.manifest
                       && e.request < k.sequence < e.response < r.terminated < r.restored)
    && (exists e :: e in run.exchanges && r.restored < e.request < e.response)
    && (exists w :: w in run.writes && r.restored < w.request < w.response)
    && (exists b :: b in run.settled && r.restored < b.sequence)
    && (exists o :: o in run.evaluations && o.candidateId == c.id && r.restored < c.sequence < o.sequence)
  }

  ghost predicate ChangeHappened(run: Run) {
    exists c, p, w :: ChangeShown(run, c, p, w)
  }

  ghost predicate FeedbackHappened(run: Run) {
    run.feedbackAllowed && exists c, p, o, e, w :: FeedbackShown(run, c, p, o, e, w)
  }

  ghost predicate CheckpointHappened(run: Run) {
    exists e, k :: CheckpointShown(run, e, k)
  }

  ghost predicate RecoveryHappened(run: Run) {
    run.incarnationActive && !run.terminationPending && exists r, c :: RecoveryShown(run, r, c)
  }

  lemma ChangedMeans(run: Run)
    ensures Changed(run) <==> ChangeHappened(run)
  {
    if Changed(run) {
      var c, p := Successful(run).value, Parent(run).value;
      WinnerFound(run, c, p);
      var w :| w in run.writes && p.sequence < w.request < w.response < c.sequence;
      assert ChangeShown(run, c, p, w);
    }
    if c, p, w :| ChangeShown(run, c, p, w) {
      WinnerFound(run, c, p);
    }
  }

  lemma FeedbackMeans(run: Run)
    ensures FeedbackUsed(run) <==> FeedbackHappened(run)
  {
    if FeedbackUsed(run) {
      var e, w :| e in run.exchanges && w in run.writes
                  && Informed(run, e) && e.request < e.response < w.request < w.response && BeforeSuccess(run, w.response);
      var c, p := Successful(run).value, Parent(run).value;
      WinnerFound(run, c, p);
      var o :| o in run.evaluations && o.candidateId == p.id && o.visibleFailure && o.sequence < e.request;
      assert FeedbackShown(run, c, p, o, e, w);
    }
    if c, p, o, e, w :| FeedbackShown(run, c, p, o, e, w) {
      WinnerFound(run, c, p);
      assert Informed(run, e) && BeforeSuccess(run, w.response);
    }
  }

  lemma OneWinner(run: Run, sequence: int)
    ensures BeforeSuccess(run, sequence) <==> forall c | Won(run, c) :: sequence < c.sequence
  {
    forall c ensures Successful(run) == Some(c) <==> Won(run, c) {
      WinnerFound(run, c, c);
    }
    if Successful(run).Some? {
      assert Won(run, Successful(run).value);
    }
  }

  lemma CheckpointMeans(run: Run)
    ensures CheckpointTaken(run) <==> CheckpointHappened(run)
  {
    forall e | e in run.checkpointResults ensures BeforeSuccess(run, e.response) <==> forall c | Won(run, c) :: e.response < c.sequence {
      OneWinner(run, e.response);
    }
    if CheckpointTaken(run) {
      var e, k :| e in run.checkpointResults && k in run.checkpoints && e.request < k.sequence < e.response && BeforeSuccess(run, e.response);
      assert CheckpointShown(run, e, k);
    }
    if e, k :| CheckpointShown(run, e, k) {
      assert BeforeSuccess(run, e.response);
    }
  }

  lemma RecoveredMeans(run: Run, r: Restart)
    requires r in run.restarts
    ensures Recovered(run, r) <==> exists c :: RecoveryShown(run, r, c)
  {
    if Recovered(run, r) {
      var c := Successful(run).value;
      WinnerFound(run, c, c);
      assert RecoveryShown(run, r, c);
    }
    if c :| RecoveryShown(run, r, c) {
      WinnerFound(run, c, c);
    }
  }

  lemma {:induction false} FirstRecoveredFound(run: Run, restarts: seq<Restart>)
    ensures FirstRecovered(run, restarts).Some? <==> exists i :: 0 <= i < |restarts| && Recovered(run, restarts[i])
  {
    if restarts != [] && !Recovered(run, restarts[0]) {
      FirstRecoveredFound(run, restarts[1..]);
      if i :| 0 <= i < |restarts| && Recovered(run, restarts[i]) {
        assert restarts[1..][i - 1] == restarts[i];
      }
      if i :| 0 <= i < |restarts[1..]| && Recovered(run, restarts[1..][i]) {
        assert restarts[i + 1] == restarts[1..][i];
      }
    }
  }

  lemma RecoveryMeans(run: Run)
    requires run.training
    ensures Recovery(run).Some? <==> RecoveryHappened(run)
  {
    FirstRecoveredFound(run, run.restarts);
    if i :| 0 <= i < |run.restarts| && Recovered(run, run.restarts[i]) {
      RecoveredMeans(run, run.restarts[i]);
    }
    if r, c :| RecoveryShown(run, r, c) {
      RecoveredMeans(run, r);
      var i :| 0 <= i < |run.restarts| && run.restarts[i] == r;
      assert Recovered(run, run.restarts[i]);
    }
  }

  /** A training trial passes a stateful requirement if and only if the journal holds the events it names, in order, and
      fails it otherwise; a fresh trial leaves all four unavailable. */
  lemma StatefulVerdicts(run: Run)
    ensures run.training ==>
              var t := Projected(run);
              && (PassedIn(t, CandidateChange) <==> ChangeHappened(run)) && CandidateChange !in t.unavailable
              && (PassedIn(t, ControlledFeedback) <==> FeedbackHappened(run)) && ControlledFeedback !in t.unavailable
              && (PassedIn(t, Checkpoint) <==> CheckpointHappened(run)) && Checkpoint !in t.unavailable
              && (PassedIn(t, ParticipantRecovery) <==> RecoveryHappened(run)) && ParticipantRecovery !in t.unavailable
    ensures !run.training ==>
              {CandidateChange, ControlledFeedback, Checkpoint, ParticipantRecovery} <= Projected(run).unavailable
  {
    ChangedMeans(run);
    FeedbackMeans(run);
    CheckpointMeans(run);
    if run.training {
      RecoveryMeans(run);
    }
    FactsDecide(run, FactsOf(run));
  }

  lemma FactsDecide(run: Run, f: Facts)
    requires f == FactsOf(run)
    ensures var t := Projected(run);
            && (f.training ==>
                  && (PassedIn(t, CandidateChange) <==> f.changed) && (PassedIn(t, ControlledFeedback) <==> f.feedbackUsed)
                  && (PassedIn(t, Checkpoint) <==> f.checkpointTaken) && (PassedIn(t, ParticipantRecovery) <==> f.recovered)
                  && t.unavailable !! {CandidateChange, ControlledFeedback, Checkpoint, ParticipantRecovery})
            && (!f.training ==> {CandidateChange, ControlledFeedback, Checkpoint, ParticipantRecovery} <= t.unavailable)
  {
    VerdictIsRecorded(run);
  }

  // ---------------------------------------------------------------------------
  // Tools, isolation and the rest
  // ---------------------------------------------------------------------------

  /** Some settled tool was verified as conformant for its capability, from this vendor. */
  ghost predicate ToolShown(run: Run, vendor: Vendor) {
    exists i :: 0 <= i < |run.settled| && (run.settled[i].tool, run.settled[i].capability) in run.conformant
                && run.conformant[(run.settled[i].tool, run.settled[i].capability)] == vendor
  }

  /** The two tool requirements: failed without a conformant tool of that kind, and otherwise unavailable. */
  lemma ToolVerdicts(run: Run)
    ensures var t := Projected(run);
            && (OpenSourceEda in t.failed <==> !ToolShown(run, OpenSource))
            && (OpenSourceEda in t.unavailable <==> ToolShown(run, OpenSource))
            && (CommercialEda in t.failed <==> !ToolShown(run, Commercial))
            && (CommercialEda in t.unavailable <==> ToolShown(run, Commercial))
  {
    VerdictIsRecorded(run);
    SettledMeans(run, OpenSource);
    SettledMeans(run, Commercial);
  }

  lemma SettledMeans(run: Run, vendor: Vendor)
    ensures SettledWith(run, vendor) <==> ToolShown(run, vendor)
  {
    if SettledWith(run, vendor) {
      var b :| b in run.settled && (b.tool, b.capability) in run.conformant && run.conformant[(b.tool, b.capability)] == vendor;
      var i :| 0 <= i < |run.settled| && run.settled[i] == b;
    }
    if ToolShown(run, vendor) {
      var i :| 0 <= i < |run.settled| && (run.settled[i].tool, run.settled[i].capability) in run.conformant
               && run.conformant[(run.settled[i].tool, run.settled[i].capability)] == vendor;
      assert run.settled[i] in run.settled;
    }
  }

  /** The settled bindings and declared operations that name the same capability and tool. */
  function Matches(settled: seq<Settled>, operations: seq<(string, string)>): set<(nat, nat)> {
    set i: nat, j: nat | i < |settled| && j < |operations| && operations[j] == (settled[i].capability, settled[i].tool) :: (i, j)
  }

  function Positions(operations: seq<(string, string)>, x: (string, string)): set<nat> {
    set j: nat | j < |operations| && operations[j] == x
  }

  lemma {:induction false} PositionsCount(operations: seq<(string, string)>, x: (string, string))
    ensures |Positions(operations, x)| == multiset(operations)[x]
  {
    if operations != [] {
      var n := |operations| - 1;
      var rest := operations[..n];
      PositionsCount(rest, x);
      assert operations == rest + [operations[n]];
      assert Positions(operations, x) == Positions(rest, x) + if operations[n] == x then {n} else {};
      assert n !in Positions(rest, x);
    }
  }

  function Pairs(n: nat, js: set<nat>): set<(nat, nat)> {
    set j | j in js :: (n, j)
  }

  lemma {:induction false} PairsCount(n: nat, js: set<nat>)
    ensures |Pairs(n, js)| == |js|
  {
    if js == {} {
      assert Pairs(n, js) == {};
    } else {
      var j :| j in js;
      PairsCount(n, js - {j});
      assert Pairs(n, js) == Pairs(n, js - {j}) + {(n, j)};
    }
  }

  lemma {:induction false} MatchesCount(settled: seq<Settled>, operations: seq<(string, string)>)
    ensures |Matches(settled, operations)| == SelectedOperations(settled, operations)
  {
    if settled == [] {
      assert Matches(settled, operations) == {};
    } else {
      var n := |settled| - 1;
      var x := (settled[n].capability, settled[n].tool);
      MatchesCount(settled[..n], operations);
      PositionsCount(operations, x);
      PairsCount(n, Positions(operations, x));
      var last := Pairs(n, Positions(operations, x));
      MatchesGrow(settled, operations, n, last);
      assert Matches(settled[..n], operations) !! last;
    }
  }

  lemma MatchesGrow(settled: seq<Settled>, operations: seq<(string, string)>, n: nat, last: set<(nat, nat)>)
    requires n == |settled| - 1
    requires last == Pairs(n, Positions(operations, (settled[n].capability, settled[n].tool)))
    ensures Matches(settled, operations) == Matches(settled[..n], operations) + last
  {
    forall i: nat, j: nat
      ensures (i, j) in Matches(settled, operations) <==> (i, j) in Matches(settled[..n], operations) + last
    {
      assert i < n ==> settled[..n][i] == settled[i];
    }
  }

  /** Input isolation is only ever unavailable, and that exactly when the settled bindings match as many declared
      operations as there are of them, outside a brokered host, with every provider request bound. */
  lemma IsolationVerdict(run: Run)
    ensures var t := Projected(run);
            && (EdaInputIsolation in t.unavailable <==>
                  && run.settled != [] && |Matches(run.settled, run.operations)| == |run.settled|
                  && !run.brokeredHost
                  && run.securityBindings != [] && forall i | 0 <= i < |run.securityBindings| :: run.securityBindings[i])
            && (EdaInputIsolation in t.failed <==> EdaInputIsolation !in t.unavailable)
  {
    VerdictIsRecorded(run);
    MatchesCount(run.settled, run.operations);
    assert false in run.securityBindings <==> exists i :: 0 <= i < |run.securityBindings| && !run.securityBindings[i];
  }

  function RequirementOf(vendor: Vendor): Requirement {
    if vendor == OpenSource then OpenSourceEda else CommercialEda
  }

  /** Settling one more conformant tool answers its own vendor's requirement and, apart from isolation and recovery,
      touches no other. */
  lemma SettlingOneMore(run: Run, b: Settled, vendor: Vendor)
    requires (b.tool, b.capability) in run.conformant && run.conformant[(b.tool, b.capability)] == vendor
    ensures var before, after := Projected(run), Projected(run.(settled := run.settled + [b]));
            && RequirementOf(vendor) in after.unavailable
            && forall q: Requirement | q !in {RequirementOf(vendor), EdaInputIsolation, ParticipantRecovery} ::
                 (q in before.failed <==> q in after.failed) && (q in before.unavailable <==> q in after.unavailable)
  {
    var more := run.(settled := run.settled + [b]);
    VerdictIsRecorded(run);
    VerdictIsRecorded(more);
    OneMoreFact(run, b, vendor);
    SameVerdicts(FactsOf(run), FactsOf(more), vendor);
  }

  /** Two sets of facts that agree on everything but one vendor, isolation and recovery. */
  predicate Agree(f: Facts, g: Facts, vendor: Vendor) {
    && (vendor == OpenSource ==> g.openSource && f.commercial == g.commercial)
    && (vendor == Commercial ==> g.commercial && f.openSource == g.openSource)
    && f == g.(openSource := f.openSource, commercial := f.commercial, isolated := f.isolated, recovered := f.recovered)
  }

  lemma SameVerdicts(f: Facts, g: Facts, vendor: Vendor)
    requires Agree(f, g, vendor)
    ensures Verdict(g, RequirementOf(vendor)) == Unavailable
    ensures forall q: Requirement | q !in {RequirementOf(vendor), EdaInputIsolation, ParticipantRecovery} :: Verdict(f, q) == Verdict(g, q)
  {
  }

  lemma OneMoreFact(run: Run, b: Settled, vendor: Vendor)
    requires (b.tool, b.capability) in run.conformant && run.conformant[(b.tool, b.capability)] == vendor
    ensures Agree(FactsOf(run), FactsOf(run.(settled := run.settled + [b])), vendor)
  {
    SettledGrows(run, b, vendor, OpenSource);
    SettledGrows(run, b, vendor, Commercial);
    SameFacts(run, run.(settled := run.settled + [b]));
  }

  lemma SameFacts(run: Run, more: Run)
    requires more == run.(settled := more.settled)
    ensures var f, g := FactsOf(run), FactsOf(more);
            && f.openSource == SettledWith(run, OpenSource) && g.openSource == SettledWith(more, OpenSource)
            && f.commercial == SettledWith(run, Commercial) && g.commercial == SettledWith(more, Commercial)
            && f == g.(openSource := f.openSource, commercial := f.commercial, isolated := f.isolated, recovered := f.recovered)
  {
    SameEvents(run, more);
  }

  lemma SettledGrows(run: Run, b: Settled, vendor: Vendor, v: Vendor)
    requires (b.tool, b.capability) in run.conformant && run.conformant[(b.tool, b.capability)] == vendor
    ensures SettledWith(run.(settled := run.settled + [b]), v) <==> SettledWith(run, v) || v == vendor
  {
    var more := run.(settled := run.settled + [b]);
    assert b in more.settled && forall x :: x in more.settled <==> x in run.settled || x == b;
  }

  /** Only the settled tools differ. */
  lemma SameEvents(run: Run, more: Run)
    requires more == run.(settled := more.settled)
    ensures Successful(more) == Successful(run) && Changed(more) == Changed(run) && FeedbackUsed(more) == FeedbackUsed(run)
    ensures CheckpointTaken(more) == CheckpointTaken(run)
  {
    assert forall e :: Informed(more, e) == Informed(run, e);
  }

  /** The remaining requirements, from the run's fields. */
  lemma OtherVerdicts(run: Run)
    ensures var t := Projected(run);
            && (HiddenVerifier in t.unavailable <==>
                  run.verifierSucceeded && run.sourcesDisjoint && exists c :: Won(run, c))
            && (HiddenVerifier in t.failed <==> HiddenVerifier !in t.unavailable)
            && (PassedIn(t, ArtifactCommit) <==>
                  CandidateState in run.artifacts && CheckpointState in run.artifacts && EvidenceState in run.artifacts)
            && (PassedIn(t, AtifProjection) <==> run.atif.Some?)
            && (PassedIn(t, ReportProjection) <==> run.report.Some?)
            && PassedIn(t, TaskBreadth)
  {
    VerdictIsRecorded(run);
    if Successful(run).Some? {
      WinnerFound(run, Successful(run).value, Successful(run).value);
    }
    if c :| Won(run, c) {
      WinnerFound(run, c, c);
    }
  }
}
