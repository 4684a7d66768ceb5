/** The single-use authorization and the broker that issues it. */
module LicenseBroker {
  import opened Wrappers
  import opened LeasePool

  /** What an authorization is bound to: the backend, the capability and the digests of driver, probe and fixture. */
  datatype Target = Target(
    toolId: string, vendor: string, capability: string,
    driverDigest: string, probeDigest: string, fixtureDigest: string)

  const OPEN_SOURCE := "open_source"

  datatype Definition = Definition(
    toolId: string, vendor: string, driverDigest: string, capabilities: set<string>, hostSupport: string, needsEula: bool)

  /** A metadata probe; `digest` identifies it. */
  datatype Probe = Probe(
    detected: bool, toolId: string, vendor: string, capabilities: set<string>, hostSupport: string, driverDigest: string,
    digest: string)

  datatype Fixture = Fixture(capability: string, digest: string, hasLogProjection: bool, hasRejectionInputs: bool)

  /** What the broker looks up: the canonical driver and fixture, the deployment it serves, and a fresh probe. */
  datatype Surroundings = Surroundings(
    canonicalDriver: Option<string>, canonicalFixture: Option<string>, deploymentTool: string, deploymentValid: bool,
    currentProbe: string, alreadyInstalled: bool)

  /** The checks of `authorize` before a lease is requested. */
  predicate Eligible(d: Definition, p: Probe, f: Fixture, s: Surroundings) {
    && !d.needsEula
    && s.canonicalDriver == Some(d.driverDigest) && s.canonicalFixture == Some(f.digest)
    && f.hasLogProjection && f.hasRejectionInputs
    && d.vendor != OPEN_SOURCE && p.detected && p.toolId == d.toolId && p.vendor == d.vendor
    && p.capabilities == d.capabilities && p.hostSupport == d.hostSupport && p.driverDigest == d.driverDigest
    && s.deploymentTool == d.toolId && s.deploymentValid && f.capability in d.capabilities
    && !s.alreadyInstalled && s.currentProbe == p.digest
  }

  function TargetOf(d: Definition, p: Probe, f: Fixture): Target {
    Target(d.toolId, d.vendor, f.capability, d.driverDigest, p.digest, f.digest)
  }

  datatype Receipt = Receipt(target: Target, maxExecutionSeconds: int, expiresAt: int)

  datatype Refusal = IsClosed | AlreadyConsumed | BindingMismatch | WorkloadTooLong | LeaseTooShort | LeaseInactive

  function RequiredSeconds(workload: int): int {
    VERSION_PROBE_SECONDS + workload + COMPLETION_GUARD_SECONDS
  }

  datatype FixtureRole = Acceptance | Rejection

  const FIXTURE_ROLES := [Acceptance, Rejection]

  function Workload(timeout: int, invocations: nat): int {
    timeout * invocations * |FIXTURE_ROLES|
  }

  // ---------------------------------------------------------------------------
  // What a workload may take
  // ---------------------------------------------------------------------------

  /** One qualification as it went: the version probe, and how long each invocation of the fixture took in each role. */
  datatype Execution = Execution(probe: int, acceptance: seq<int>, rejection: seq<int>)

  /** The probe ends within twenty seconds, and every invocation within its timeout. */
  predicate Possible(x: Execution, timeout: int, invocations: nat) {
    && x.probe <= 20
    && |x.acceptance| == invocations && (forall i | 0 <= i < invocations :: x.acceptance[i] <= timeout)
    && |x.rejection| == invocations && (forall i | 0 <= i < invocations :: x.rejection[i] <= timeout)
  }

  function Sum(durations: seq<int>): int {
    if durations == [] then 0 else durations[0] + Sum(durations[1..])
  }

  /** The time spent in the tool itself, over both roles. */
  function ToolTime(x: Execution): int {
    Sum(x.acceptance) + Sum(x.rejection)
  }

  lemma {:induction false} SumWithin(durations: seq<int>, timeout: int)
    requires forall i | 0 <= i < |durations| :: durations[i] <= timeout
    ensures Sum(durations) <= timeout * |durations|
  {
    if durations != [] {
      SumWithin(durations[1..], timeout);
      assert timeout * |durations| == timeout + timeout * (|durations| - 1);
    }
  }

  lemma {:induction false} SumOfEqual(n: nat, timeout: int)
    ensures Sum(seq(n, i => timeout)) == timeout * n
  {
    if n > 0 {
      SumOfEqual(n - 1, timeout);
      assert seq(n, i => timeout)[1..] == seq(n - 1, i => timeout);
      assert timeout * n == timeout + timeout * (n - 1);
    }
  }

  /** No possible execution takes longer than the workload, and one takes just as long. */
  lemma WorkloadIsLongest(timeout: int, invocations: nat) returns (longest: Execution)
    ensures forall x | Possible(x, timeout, invocations) :: ToolTime(x) <= Workload(timeout, invocations)
    ensures Possible(longest, timeout, invocations) && longest.probe == 20 && ToolTime(longest) == Workload(timeout, invocations)
  {
    forall x | Possible(x, timeout, invocations) ensures ToolTime(x) <= Workload(timeout, invocations) {
      SumWithin(x.acceptance, timeout);
      SumWithin(x.rejection, timeout);
    }
    longest := Execution(20, seq(invocations, i => timeout), seq(invocations, i => timeout));
    SumOfEqual(invocations, timeout);
  }

  predicate Authorizable(maxExecution: int, ttl: int) {
    0 < maxExecution <= MAX_EXECUTION_SECONDS && RequiredSeconds(maxExecution) <= ttl
  }

  /** The checks of `_consume` up to its first clock reading, in the order they are made. */
  function ClaimRefusal(receipt: Receipt, consumed: bool, closed: bool, target: Target, workload: int, now: int): Option<Refusal> {
    if closed then Some(IsClosed)
    else if consumed then Some(AlreadyConsumed)
    else if receipt.target != target then Some(BindingMismatch)
    else if workload > receipt.maxExecutionSeconds then Some(WorkloadTooLong)
    else if now + RequiredSeconds(workload) > receipt.expiresAt then Some(LeaseTooShort)
    else None
  }

  class CommercialQualificationAuthorization {
    const receipt: Receipt
    const lease: LicenseLease
    const provider: HostModuleLicenseProvider
    var consumed: bool
    var closed: bool

    constructor (receipt: Receipt, lease: LicenseLease, provider: HostModuleLicenseProvider)
      ensures this.receipt == receipt && this.lease == lease && this.provider == provider
      ensures !consumed && !closed
    {
      this.receipt := receipt;
      this.lease := lease;
      this.provider := provider;
      consumed := false;
      closed := false;
    }

    /** `claimed` is the reading the lease time is checked against; the lease itself is read later. */
    method Consume(target: Target, timeout: int, invocations: nat, clock: Clock)
      returns (refusal: Option<Refusal>, ghost claimed: int)
      modifies this`consumed, lease`phase, clock
      ensures old(clock.now) <= claimed <= clock.now
      ensures var refused := ClaimRefusal(receipt, old(consumed), closed, target, Workload(timeout, invocations), claimed);
              if refused.Some? then refusal == refused && consumed == old(consumed) && lease.View() == old(lease.View())
              else && lease.View() == Observe(old(lease.View()), clock.now)
                   && consumed == Live(old(lease.View()), clock.now)
                   && refusal == (if consumed then None else Some(LeaseInactive))
      ensures refusal.None? ==> && !old(consumed) && !closed && receipt.target == target
                                && forall x | Possible(x, timeout, invocations) ::
                                     && ToolTime(x) <= receipt.maxExecutionSeconds
                                     && claimed + x.probe + ToolTime(x) + 1 <= receipt.expiresAt
      ensures refusal == Some(WorkloadTooLong) ==>
                exists x :: Possible(x, timeout, invocations) && ToolTime(x) > receipt.maxExecutionSeconds
      ensures refusal == Some(LeaseTooShort) ==>
                exists x :: Possible(x, timeout, invocations) && claimed + x.probe + ToolTime(x) + 1 > receipt.expiresAt
    {
      ghost var longest := WorkloadIsLongest(timeout, invocations);
      claimed := clock.now;
      if closed {
        return Some(IsClosed), claimed;
      }
      if consumed {
        return Some(AlreadyConsumed), claimed;
      }
      if receipt.target != target {
        return Some(BindingMismatch), claimed;
      }
      var workload := Workload(timeout, invocations);
      if workload > receipt.maxExecutionSeconds {
        return Some(WorkloadTooLong), claimed;
      }
      var t := clock.Read();
      claimed := t;
      if t + RequiredSeconds(workload) > receipt.expiresAt {
        return Some(LeaseTooShort), claimed;
      }
      var state := lease.State(clock);
      if state != Active {
        return Some(LeaseInactive), claimed;
      }
      consumed := true;
      refusal := None;
    }

    method Close(clock: Clock)
      requires provider.Valid() && lease in provider.issued
      modifies this`closed, provider`active, lease`phase, clock
      ensures provider.Valid() && closed && provider.issued == old(provider.issued)
      ensures provider.View() == if old(closed) then old(provider.View())
                                 else Look(Drop(old(provider.View()), lease.id), lease.id, clock.now)
    {
      if closed {
        return;
      }
      var _ := provider.Release(lease, clock);
      closed := true;
    }
  }

  /** The leases issued between two states of the provider have all been handed back. */
  ghost predicate NothingLeft(before: Pool, after: Pool) {
    && |before.leases| <= |after.leases|
    && after.table <= before.table
    && forall i | |before.leases| <= i < |after.leases| :: after.leases[i].phase == Released
  }

  /** The checkouts grew by one active lease, the last one issued, which runs at least until `deadline`. */
  ghost predicate OneMore(before: Pool, after: Pool, deadline: int) {
    && |after.leases| == |before.leases| + 1
    && |before.leases| in after.table && after.table <= before.table + {|before.leases|}
    && after.leases[|before.leases|].phase == Active
    && deadline <= after.leases[|before.leases|].expiresAt
  }

  /** The last part of `authorize`: inspect the lease just acquired, and issue the authorization or hand it back.
      `builds` says whether the receipt and the authorization are constructed without an exception. */
  method Conclude(
    provider: HostModuleLicenseProvider, lease: LicenseLease, target: Target, maxExecution: int, deadline: int,
    builds: bool, clock: Clock)
    returns (r: Option<CommercialQualificationAuthorization>)
    requires provider.Valid() && lease in provider.issued && lease.id in provider.active
    modifies provider`active, lease`phase, clock
    ensures provider.Valid() && provider.issued == old(provider.issued) && old(clock.now) <= clock.now
    ensures r.None? ==> provider.View() == Drop(old(provider.View()), lease.id)
    ensures r.Some? ==>
              && fresh(r.value) && r.value.provider == provider && r.value.lease == lease
              && !r.value.consumed && !r.value.closed
              && r.value.receipt == Receipt(target, maxExecution, deadline)
              && provider.View() == old(provider.View()) && lease.phase == Active
              && clock.now + RequiredSeconds(maxExecution) <= deadline
  {
    ghost var before := provider.View();
    ghost var own: nat := lease.id;
    assert provider.issued[own] == lease;
    var state := lease.State(clock);
    ghost var inspected := provider.View();
    assert inspected == Look(before, own, clock.now);
    if state != Active {
      var _ := provider.Release(lease, clock);
      assert provider.View() == Drop(before, own);
      return None;
    }
    assert inspected.leases == before.leases;
    var authorizedAt := clock.Read();
    if authorizedAt + RequiredSeconds(maxExecution) > deadline || !builds {
      var _ := provider.Release(lease, clock);
      assert provider.View() == Drop(before, own);
      return None;
    }
    var authorization := new CommercialQualificationAuthorization(Receipt(target, maxExecution, deadline), lease, provider);
    r := Some(authorization);
  }

  lemma SweepLeavesNothing(before: Pool, max: nat, when: seq<int>)
    requires Accounted(before, max) && |when| == |before.leases|
    ensures NothingLeft(before, Sweep(before, when)) && Accounted(Sweep(before, when), max)
  {
    SweepKeepsAccounts(before, max, when);
  }

  lemma GrantThenDropLeavesNothing(before: Pool, max: nat, when: seq<int>, expiresAt: int)
    requires Accounted(before, max) && |when| == |before.leases| && |Sweep(before, when).table| < max
    ensures var granted := Grant(Sweep(before, when), expiresAt);
            var dropped := Drop(granted, |before.leases|);
            && Accounted(granted, max) && OneMore(before, granted, expiresAt)
            && Accounted(dropped, max) && NothingLeft(before, dropped)
  {
    SweepLeavesNothing(before, max, when);
    var swept := Sweep(before, when);
    GrantAccounted(swept, max, expiresAt);
    assert OneMore(before, Grant(swept, expiresAt), expiresAt);
  }

  /** What `acquire` leaves, in terms of the table before it. */
  lemma AcquireOutcome(before: Pool, after: Pool, max: nat, when: seq<int>, expiresAt: int, granted: bool)
    requires Accounted(before, max) && |when| == |before.leases|
    requires granted ==> |Sweep(before, when).table| < max
    requires after == if granted then Grant(Sweep(before, when), expiresAt) else Sweep(before, when)
    ensures Accounted(after, max)
    ensures !granted ==> NothingLeft(before, after)
    ensures granted ==>
              && OneMore(before, after, expiresAt)
              && Accounted(Drop(after, |before.leases|), max) && NothingLeft(before, Drop(after, |before.leases|))
  {
    if granted {
      GrantThenDropLeavesNothing(before, max, when, expiresAt);
    } else {
      SweepLeavesNothing(before, max, when);
    }
  }

  /** A grant keeps the books and is undone by handing the lease back. */
  lemma GrantAccounted(p: Pool, max: nat, expiresAt: int)
    requires Accounted(p, max) && |p.table| < max
    ensures var granted := Grant(p, expiresAt);
            var dropped := Drop(granted, |p.leases|);
            && Accounted(granted, max) && Accounted(dropped, max)
            && dropped.table == p.table && dropped.leases == p.leases + [Lease(expiresAt, Released)]
  {
    assert Drop(Grant(p, expiresAt), |p.leases|).table == p.table;
  }

  method CheckOut(provider: HostModuleLicenseProvider, ttl: nat, environmentLoads: bool, clock: Clock)
    returns (r: Option<LicenseLease>)
    requires provider.Valid() && Accounted(provider.View(), provider.maxCheckouts) && ttl > 0
    modifies provider, provider.issued, clock
    ensures provider.Valid() && Accounted(provider.View(), provider.maxCheckouts) && old(clock.now) <= clock.now
    ensures r.None? ==> NothingLeft(old(provider.View()), provider.View())
    ensures r.Some? ==>
              && fresh(r.value) && provider.issued == old(provider.issued) + [r.value]
              && r.value.id == |old(provider.issued)| && r.value.id in provider.active
              && OneMore(old(provider.View()), provider.View(), old(clock.now) + ttl)
              && Accounted(Drop(provider.View(), r.value.id), provider.maxCheckouts)
              && NothingLeft(old(provider.View()), Drop(provider.View(), r.value.id))
  {
    ghost var before := provider.View();
    ghost var when;
    r, when := provider.Acquire(ttl, environmentLoads, clock);
    AcquireOutcome(before, provider.View(), provider.maxCheckouts, when, clock.now + ttl, r.Some?);
    assert r.Some? ==> r.value.id in provider.View().table;
  }

  /** `authorize` */
  method Authorize(
    provider: HostModuleLicenseProvider, definition: Definition, probe: Probe, fixture: Fixture, surroundings: Surroundings,
    maxExecution: int, ttl: int, environmentLoads: bool, builds: bool, clock: Clock)
    returns (r: Option<CommercialQualificationAuthorization>)
    requires provider.Valid() && Accounted(provider.View(), provider.maxCheckouts)
    modifies provider, provider.issued, clock
    ensures provider.Valid() && Accounted(provider.View(), provider.maxCheckouts)
    ensures r.None? ==> NothingLeft(old(provider.View()), provider.View())
    ensures r.Some? ==>
              && definition.vendor != "open_source" && !definition.needsEula && fixture.capability in definition.capabilities
              && probe.detected && probe.toolId == definition.toolId == surroundings.deploymentTool
              && probe.vendor == definition.vendor && probe.capabilities == definition.capabilities
              && probe.driverDigest == definition.driverDigest && surroundings.currentProbe == probe.digest
              && surroundings.canonicalDriver == Some(definition.driverDigest)
              && surroundings.canonicalFixture == Some(fixture.digest) && fixture.hasRejectionInputs && fixture.hasLogProjection
              && 1 <= maxExecution <= 3600 && maxExecution + 21 <= ttl
              && fresh(r.value) && r.value.provider == provider && !r.value.consumed && !r.value.closed
              && fresh(r.value.lease) && provider.issued == old(provider.issued) + [r.value.lease]
              && r.value.receipt == Receipt(Target(definition.toolId, definition.vendor, fixture.capability,
                                                   definition.driverDigest, probe.digest, fixture.digest),
                                            maxExecution, r.value.receipt.expiresAt)
              && OneMore(old(provider.View()), provider.View(), r.value.receipt.expiresAt)
              && clock.now + maxExecution + 21 <= r.value.receipt.expiresAt
  {
    if !Eligible(definition, probe, fixture, surroundings) || !Authorizable(maxExecution, ttl) {
      return None;
    }
    var requestedAt := clock.Read();
    var deadline := requestedAt + ttl;
    var lease := CheckOut(provider, ttl, environmentLoads, clock);
    if lease.None? {
      return None;
    }
    r := Conclude(provider, lease.value, TargetOf(definition, probe, fixture), maxExecution, deadline, builds, clock);
  }
}
