/** Every interleaving of acquiring, renewing, releasing, authorizing, consuming and closing.

    Each locked region is one step, and the two calls that read the clock more than once while another thread can
    run (`renew`, `_consume`) are split at those reads.  `log`, `shortened` and `returned` are history variables.
 */
module LicenseRuns {
  import opened Wrappers
  import opened LeasePool
  import opened LicenseBroker

  /** Where one call of `authorize` stands. */
  datatype Stage = Requested | Holding | Inspected | Doomed | Refused | Issued

  /** `claim` is the time until which the `_consume` in progress needs the lease; it stands for the held lock. */
  datatype Grant = Grant(
    target: Target, maxExecution: int, ttl: int, deadline: int, stage: Stage, lease: Option<nat>,
    consumed: bool, closed: bool, claim: Option<Consumption>)

  /** A use of an authorization: when the lease time was checked, and for which workload. */
  datatype Consumption = Consumption(grant: nat, at: int, timeout: int, invocations: nat)

  /** The time until which a use needs the lease. */
  function Until(e: Consumption): int {
    e.at + RequiredSeconds(Workload(e.timeout, e.invocations))
  }

  datatype Renewal = Renewal(lease: nat, ttl: int)

  /** `known` are the leases a client can name: acquired directly, or handed out by a successful `_consume`. */
  datatype System = System(
    now: int, pool: Pool, renewing: Option<Renewal>, grants: seq<Grant>, known: set<nat>,
    log: seq<Consumption>, shortened: set<nat>, returned: set<nat>)

  function Initial(now: int): System {
    System(now, Pool([], {}), None, [], {}, [], {}, {})
  }

  datatype Step =
    | Look(lease: nat, t: int)
    | Acquire(ttl: int, loads: bool, when: seq<int>, t: int)
    | RenewCheck(lease: nat, ttl: int, t: int)
    | RenewSet(t: int)
    | Release(lease: nat, t: int)
    | Authorize(target: Target, maxExecution: int, ttl: int, t: int)
    | CheckOut(grant: nat, loads: bool, when: seq<int>, t: int)
    | Inspect(grant: nat, t: int)
    | Issue(grant: nat, built: bool, t: int)
    | Abandon(grant: nat, t: int)
    | Claim(grant: nat, target: Target, timeout: int, invocations: nat, t: int)
    | Consume(grant: nat, t: int)
    | Close(grant: nat, t: int)

  predicate InStage(s: System, g: nat, stage: Stage) {
    g < |s.grants| && s.grants[g].stage == stage && (stage !in {Requested, Refused} ==> s.grants[g].lease.Some?)
  }

  predicate Unlocked(s: System, g: nat) {
    InStage(s, g, Issued) && s.grants[g].claim.None?
  }

  predicate Readable(s: System, when: seq<int>, t: int) {
    s.renewing.None? && |when| == |s.pool.leases| && WithinTimes(when, s.now, t)
  }

  predicate LeasesExist(s: System) {
    && (forall l | l in s.known + s.returned :: l < |s.pool.leases|)
    && (forall g | 0 <= g < |s.grants| && s.grants[g].lease.Some? :: s.grants[g].lease.value < |s.pool.leases|)
    && (s.renewing.Some? ==> s.renewing.value.lease in s.known && s.renewing.value.ttl > 0)
  }

  predicate Enabled(s: System, step: Step) {
    LeasesExist(s) && s.now <= step.t &&
    match step
    case Look(l, _) => l < |s.pool.leases|
    case Acquire(ttl, _, when, t) => ttl > 0 && Readable(s, when, t)
    case RenewCheck(l, ttl, _) => s.renewing.None? && l in s.known && ttl > 0
    case RenewSet(_) => s.renewing.Some?
    case Release(l, _) => s.renewing.None? && l in s.known
    case Authorize(_, _, _, _) => true
    case CheckOut(g, _, when, t) => InStage(s, g, Requested) && Readable(s, when, t)
    case Inspect(g, _) => InStage(s, g, Holding)
    case Issue(g, _, _) => InStage(s, g, Inspected)
    case Abandon(g, _) => InStage(s, g, Doomed) && s.renewing.None?
    case Claim(g, _, _, _, _) => Unlocked(s, g)
    case Consume(g, _) => InStage(s, g, Issued) && s.grants[g].claim.Some?
    case Close(g, _) => Unlocked(s, g) && s.renewing.None?
  }

  function WithGrant(s: System, g: nat, grant: Grant): System
    requires g < |s.grants|
  {
    s.(grants := s.grants[g := grant])
  }

  function WithLook(s: System, l: nat): System
    requires l < |s.pool.leases|
  {
    s.(pool := LeasePool.Look(s.pool, l, s.now))
  }

  /** Pops and releases the lease of a grant or of a client. */
  function Return(s: System, l: nat): System
    requires l < |s.pool.leases|
  {
    s.(pool := Drop(s.pool, l), returned := s.returned + {l})
  }

  function Granted(max: nat, s: System, loads: bool, when: seq<int>): bool
    requires |when| == |s.pool.leases|
  {
    loads && |Sweep(s.pool, when).table| < max
  }

  /** The table after `acquire`, whether or not it granted a checkout. */
  function Acquired(max: nat, s: System, ttl: int, loads: bool, when: seq<int>): System
    requires |when| == |s.pool.leases|
  {
    var swept := Sweep(s.pool, when);
    s.(pool := if Granted(max, s, loads, when) then LeasePool.Grant(swept, s.now + ttl) else swept)
  }

  function ReceiptOf(g: Grant): Receipt {
    LicenseBroker.Receipt(g.target, g.maxExecution, g.deadline)
  }

  function Apply(max: nat, before: System, step: Step): System
    requires Enabled(before, step)
  {
    var s := before.(now := step.t);
    match step
    case Look(l, _) => WithLook(s, l)
    case Acquire(ttl, loads, when, _) =>
      var next := |s.pool.leases|;
      Acquired(max, s, ttl, loads, when).(known := if Granted(max, s, loads, when) then s.known + {next} else s.known)
    case RenewCheck(l, ttl, _) =>
      var seen := WithLook(s, l);
      if l in s.pool.table && Live(s.pool.leases[l], s.now) then seen.(renewing := Some(Renewal(l, ttl))) else seen
    case RenewSet(_) =>
      var l, until := s.renewing.value.lease, s.now + s.renewing.value.ttl;
      s.(renewing := None, pool := Extend(s.pool, l, until),
         shortened := if until < s.pool.leases[l].expiresAt then s.shortened + {l} else s.shortened)
    case Release(l, _) => Return(s, l)
    case Authorize(target, maxExecution, ttl, _) =>
      if !Authorizable(maxExecution, ttl) then s else
      s.(grants := s.grants + [Grant(target, maxExecution, ttl, s.now + ttl, Requested, None, false, false, None)])
    case CheckOut(g, loads, when, _) =>
      var granted := Granted(max, s, loads, when);
      var grant := s.grants[g];
      WithGrant(Acquired(max, s, grant.ttl, loads, when), g,
                if granted then grant.(stage := Holding, lease := Some(|s.pool.leases|)) else grant.(stage := Refused))
    case Inspect(g, _) =>
      var l := s.grants[g].lease.value;
      WithGrant(WithLook(s, l), g, s.grants[g].(stage := if Live(s.pool.leases[l], s.now) then Inspected else Doomed))
    case Issue(g, built, _) =>
      var grant := s.grants[g];
      var issued := built && s.now + RequiredSeconds(grant.maxExecution) <= grant.deadline;
      WithGrant(s, g, grant.(stage := if issued then Issued else Doomed))
    case Abandon(g, _) => WithGrant(Return(s, s.grants[g].lease.value), g, s.grants[g].(stage := Refused))
    case Claim(g, target, timeout, invocations, _) =>
      var grant := s.grants[g];
      var workload := Workload(timeout, invocations);
      if ClaimRefusal(ReceiptOf(grant), grant.consumed, grant.closed, target, workload, s.now).Some? then s else
      WithGrant(s, g, grant.(claim := Some(Consumption(g, s.now, timeout, invocations))))
    case Consume(g, _) =>
      var grant := s.grants[g];
      var l := grant.lease.value;
      var seen := WithLook(s, l);
      if Live(s.pool.leases[l], s.now)
      then WithGrant(seen, g, grant.(claim := None, consumed := true)).(log := s.log + [grant.claim.value], known := s.known + {l})
      else WithGrant(seen, g, grant.(claim := None))
    case Close(g, _) =>
      var grant := s.grants[g];
      if grant.closed then s else WithGrant(Return(s, grant.lease.value), g, grant.(closed := true))
  }

  // ---------------------------------------------------------------------------
  // The invariant
  // ---------------------------------------------------------------------------

  /** The checkout belongs to the authorization alone: no client has been handed the lease yet. */
  predicate Exclusive(g: Grant) {
    g.lease.Some? && (g.stage in {Holding, Inspected, Doomed} || (g.stage == Issued && !g.consumed && !g.closed))
  }

  predicate GrantInv(s: System, g: Grant) {
    && 0 < g.maxExecution
    && (g.stage == Requested ==> g.lease.None? && g.deadline <= s.now + g.ttl)
    && (g.stage in {Holding, Inspected, Doomed, Issued} ==> g.lease.Some?)
    && (g.stage != Issued ==> !g.consumed && !g.closed && g.claim.None?)
    && (g.claim.Some? ==> !g.consumed && !g.closed && Until(g.claim.value) <= g.deadline)
    && (g.lease.Some? ==> g.lease.value < |s.pool.leases| && LeaseInv(s, g, g.lease.value))
  }

  predicate LeaseInv(s: System, g: Grant, l: nat)
    requires l < |s.pool.leases|
  {
    var lease := s.pool.leases[l];
    && (g.stage == Refused || g.closed ==> lease.phase == Released)
    && (Exclusive(g) ==> l !in s.known && l !in s.returned)
    && (l !in s.shortened ==> g.deadline <= lease.expiresAt)
    && (l !in s.shortened && l !in s.returned && s.now < g.deadline ==> lease.phase == Active)
  }

  predicate GrantsInv(s: System) {
    forall g | 0 <= g < |s.grants| :: GrantInv(s, s.grants[g])
  }

  predicate OwnersDiffer(s: System) {
    forall g, h | 0 <= g < h < |s.grants| && s.grants[g].lease.Some? :: s.grants[g].lease != s.grants[h].lease
  }

  predicate LogInv(s: System) {
    && (forall g | 0 <= g < |s.grants| && s.grants[g].claim.Some? :: s.grants[g].claim.value.grant == g)
    && (forall i | 0 <= i < |s.log| ::
          var g := s.log[i].grant; g < |s.grants| && s.grants[g].consumed && Until(s.log[i]) <= s.grants[g].deadline)
    && (forall i, j | 0 <= i < j < |s.log| :: s.log[i].grant != s.log[j].grant)
  }

  predicate Inv(max: nat, s: System) {
    && LeasesExist(s)
    && Accounted(s.pool, max)
    && s.shortened <= s.known
    && GrantsInv(s)
    && OwnersDiffer(s)
    && LogInv(s)
  }

  // ---------------------------------------------------------------------------
  // Every step keeps the invariant
  // ---------------------------------------------------------------------------

  /** How any step may change the leases that already exist. */
  predicate Evolves(s: System, t: System) {
    && s.now <= t.now && s.returned <= t.returned && s.shortened <= t.shortened
    && |s.pool.leases| <= |t.pool.leases|
    && forall l | 0 <= l < |s.pool.leases| ::
         var past, next := s.pool.leases[l], t.pool.leases[l];
         && (past.phase == Released ==> next.phase == Released)
         && (past.phase != Active ==> next.phase != Active)
         && (l !in t.shortened ==> past.expiresAt <= next.expiresAt)
         && (l !in t.returned && next.phase != Active ==> past.phase != Active || past.expiresAt <= t.now)
  }

  lemma LookEvolves(max: nat, s: System, l: nat)
    requires Accounted(s.pool, max) && l < |s.pool.leases|
    ensures Evolves(s, WithLook(s, l)) && Accounted(WithLook(s, l).pool, max)
  {
  }

  lemma ReturnEvolves(max: nat, s: System, l: nat)
    requires Accounted(s.pool, max) && l < |s.pool.leases|
    ensures Evolves(s, Return(s, l)) && Accounted(Return(s, l).pool, max)
    ensures Return(s, l).pool.leases[l].phase == Released
  {
  }

  lemma SweepEvolves(max: nat, s: System, when: seq<int>)
    requires Accounted(s.pool, max) && |when| == |s.pool.leases| && forall i | 0 <= i < |when| :: when[i] <= s.now
    ensures Evolves(s, s.(pool := Sweep(s.pool, when))) && Accounted(Sweep(s.pool, when), max)
  {
    SweepKeepsAccounts(s.pool, max, when);
  }

  lemma AcquiredEvolves(max: nat, s: System, ttl: int, loads: bool, when: seq<int>)
    requires Accounted(s.pool, max) && |when| == |s.pool.leases| && forall i | 0 <= i < |when| :: when[i] <= s.now
    ensures Evolves(s, Acquired(max, s, ttl, loads, when)) && Accounted(Acquired(max, s, ttl, loads, when).pool, max)
  {
    SweepEvolves(max, s, when);
    if Granted(max, s, loads, when) {
      GrantEvolves(max, s, Sweep(s.pool, when), s.now + ttl);
    }
  }

  lemma GrantEvolves(max: nat, s: System, p: Pool, expiresAt: int)
    requires Evolves(s, s.(pool := p)) && Accounted(p, max) && |p.table| < max
    ensures Evolves(s, s.(pool := LeasePool.Grant(p, expiresAt))) && Accounted(LeasePool.Grant(p, expiresAt), max)
  {
    assert forall l | 0 <= l < |p.leases| :: LeasePool.Grant(p, expiresAt).leases[l] == p.leases[l];
  }

  lemma StepEvolves(max: nat, before: System, step: Step)
    requires Enabled(before, step) && Accounted(before.pool, max)
    ensures Evolves(before, Apply(max, before, step))
    ensures Accounted(Apply(max, before, step).pool, max)
  {
    var s := before.(now := step.t);
    match step
    case Look(l, _) => LookEvolves(max, s, l);
    case Acquire(ttl, loads, when, _) => AcquiredEvolves(max, s, ttl, loads, when);
    case CheckOut(g, loads, when, _) => AcquiredEvolves(max, s, s.grants[g].ttl, loads, when);
    case RenewCheck(l, _, _) => LookEvolves(max, s, l);
    case Release(l, _) => ReturnEvolves(max, s, l);
    case Inspect(g, _) => LookEvolves(max, s, s.grants[g].lease.value);
    case Abandon(g, _) => ReturnEvolves(max, s, s.grants[g].lease.value);
    case Consume(g, _) => LookEvolves(max, s, s.grants[g].lease.value);
    case Close(g, _) => ReturnEvolves(max, s, s.grants[g].lease.value);
    case _ =>
  }

  predicate Untouched(s: System, t: System, l: nat) {
    && (l in t.known ==> l in s.known)
    && (l in t.returned ==> l in s.returned)
  }

  lemma GrantKept(s: System, t: System, g: Grant)
    requires GrantInv(s, g) && Evolves(s, t)
    requires Exclusive(g) ==> Untouched(s, t, g.lease.value)
    ensures GrantInv(t, g)
  {
  }

  function Touched(step: Step): Option<nat> {
    match step
    case CheckOut(g, _, _, _) => Some(g)
    case Inspect(g, _) => Some(g)
    case Issue(g, _, _) => Some(g)
    case Abandon(g, _) => Some(g)
    case Claim(g, _, _, _, _) => Some(g)
    case Consume(g, _) => Some(g)
    case Close(g, _) => Some(g)
    case _ => None
  }

  lemma OtherGrantsKept(max: nat, s: System, step: Step, h: nat)
    requires Enabled(s, step) && Inv(max, s)
    requires h < |s.grants| && Touched(step) != Some(h)
    ensures var t := Apply(max, s, step); h < |t.grants| && t.grants[h] == s.grants[h] && GrantInv(t, t.grants[h])
  {
    var t := Apply(max, s, step);
    StepEvolves(max, s, step);
    var grant := s.grants[h];
    assert GrantInv(s, grant);
    if Exclusive(grant) {
      match Touched(step) {
        case Some(g) =>
          assert s.grants[g].lease != grant.lease;
        case None =>
      }
      assert Untouched(s, t, grant.lease.value);
    }
    GrantKept(s, t, grant);
  }

  lemma CheckOutKept(max: nat, s: System, step: Step)
    requires Enabled(s, step) && Inv(max, s) && step.CheckOut?
    ensures var t := Apply(max, s, step); GrantInv(t, t.grants[step.grant])
  {
    StepEvolves(max, s, step);
    assert GrantInv(s, s.grants[step.grant]);
  }

  lemma TouchedGrantKept(max: nat, s: System, step: Step, g: nat)
    requires Enabled(s, step) && Inv(max, s) && Touched(step) == Some(g) && !step.CheckOut?
    ensures var t := Apply(max, s, step); g < |t.grants| && GrantInv(t, t.grants[g])
  {
    var t := Apply(max, s, step);
    StepEvolves(max, s, step);
    assert GrantInv(s, s.grants[g]);
  }

  lemma StepKeepsGrants(max: nat, s: System, step: Step)
    requires Enabled(s, step) && Inv(max, s)
    ensures GrantsInv(Apply(max, s, step))
  {
    var t := Apply(max, s, step);
    forall g | 0 <= g < |t.grants| ensures GrantInv(t, t.grants[g]) {
      if g < |s.grants| {
        if Touched(step) != Some(g) {
          OtherGrantsKept(max, s, step, g);
        } else if step.CheckOut? {
          CheckOutKept(max, s, step);
        } else {
          TouchedGrantKept(max, s, step, g);
        }
      }
    }
  }

  /** A step gives a lease to at most one grant, and then the newest lease. */
  predicate OwnersGrow(s: System, t: System, g0: nat) {
    && |s.grants| <= |t.grants|
    && (forall g | 0 <= g < |s.grants| :: t.grants[g].lease == s.grants[g].lease || (g == g0 && t.grants[g].lease == Some(|s.pool.leases|)))
    && (forall g | |s.grants| <= g < |t.grants| :: t.grants[g].lease.None?)
  }

  lemma StepGrowsOwners(max: nat, s: System, step: Step)
    requires Enabled(s, step)
    ensures OwnersGrow(s, Apply(max, s, step), if step.CheckOut? then step.grant else 0)
  {
  }

  lemma OwnersStayDifferent(s: System, t: System, g0: nat)
    requires LeasesExist(s) && OwnersDiffer(s) && OwnersGrow(s, t, g0)
    ensures OwnersDiffer(t)
  {
    assert forall g | 0 <= g < |s.grants| && s.grants[g].lease.Some? :: s.grants[g].lease.value < |s.pool.leases|;
  }

  lemma StepKeepsOwners(max: nat, s: System, step: Step)
    requires Enabled(s, step) && Inv(max, s)
    ensures OwnersDiffer(Apply(max, s, step))
  {
    StepGrowsOwners(max, s, step);
    OwnersStayDifferent(s, Apply(max, s, step), if step.CheckOut? then step.grant else 0);
  }

  lemma StepKeepsClaims(max: nat, s: System, step: Step)
    requires Enabled(s, step) && Inv(max, s)
    ensures var t := Apply(max, s, step);
            SameRecords(s, t)
  {
  }

  /** The log grows only by the claim of an authorization that was not consumed before and is now. */
  lemma StepGrowsLog(max: nat, s: System, step: Step)
    requires Enabled(s, step) && Inv(max, s) && Apply(max, s, step).log != s.log
    ensures step.Consume? && InStage(s, step.grant, Issued) && s.grants[step.grant].claim.Some?
    ensures var t, e := Apply(max, s, step), s.grants[step.grant].claim.value;
            && t.log == s.log + [e] && e.grant == step.grant < |t.grants| && !s.grants[step.grant].consumed
            && t.grants[step.grant].consumed && Until(e) <= t.grants[step.grant].deadline
  {
    assert GrantInv(s, s.grants[step.grant]);
  }

  lemma StepKeepsLog(max: nat, s: System, step: Step)
    requires Enabled(s, step) && Inv(max, s)
    ensures LogInv(Apply(max, s, step))
  {
    var t := Apply(max, s, step);
    StepKeepsClaims(max, s, step);
    if t.log != s.log {
      StepGrowsLog(max, s, step);
      LogGrows(s, t, s.grants[step.grant].claim.value);
    }
  }

  predicate SameRecords(s: System, t: System) {
    && |s.grants| <= |t.grants|
    && (forall g | 0 <= g < |t.grants| && t.grants[g].claim.Some? :: t.grants[g].claim.value.grant == g)
    && (forall g | 0 <= g < |s.grants| ::
          t.grants[g].deadline == s.grants[g].deadline && (s.grants[g].consumed ==> t.grants[g].consumed))
  }

  lemma LogGrows(s: System, t: System, e: Consumption)
    requires LogInv(s) && SameRecords(s, t) && t.log == s.log + [e]
    requires e.grant < |s.grants| && !s.grants[e.grant].consumed && t.grants[e.grant].consumed && Until(e) <= t.grants[e.grant].deadline
    ensures LogInv(t)
  {
    forall i | 0 <= i < |s.log| ensures t.log[i] == s.log[i] && s.log[i].grant != e.grant {
      assert s.grants[s.log[i].grant].consumed;
    }
  }

  /** A step lets a client name, or hands back, only a lease that existed or the one just granted. */
  lemma StepKeepsNames(max: nat, s: System, step: Step, l: nat)
    requires Enabled(s, step) && Inv(max, s)
    requires var t := Apply(max, s, step); l in t.known + t.returned
    ensures l < |Apply(max, s, step).pool.leases|
  {
    StepEvolves(max, s, step);
    assert l in s.known + s.returned ==> l < |s.pool.leases|;
  }

  lemma StepKeepsRenewal(max: nat, s: System, step: Step)
    requires Enabled(s, step) && Inv(max, s)
    ensures var t := Apply(max, s, step);
            && s.known <= t.known && t.shortened <= t.known
            && (t.renewing.Some? ==> t.renewing.value.lease in t.known && t.renewing.value.ttl > 0)
  {
  }

  lemma StepKeepsLeases(max: nat, s: System, step: Step)
    requires Enabled(s, step) && Inv(max, s)
    ensures var t := Apply(max, s, step); LeasesExist(t) && t.shortened <= t.known
  {
    var t := Apply(max, s, step);
    StepKeepsRenewal(max, s, step);
    StepKeepsGrants(max, s, step);
    forall l | l in t.known + t.returned ensures l < |t.pool.leases| {
      StepKeepsNames(max, s, step, l);
    }
    assert forall g | 0 <= g < |t.grants| :: GrantInv(t, t.grants[g]);
  }

  lemma StepKeepsInv(max: nat, s: System, step: Step)
    requires Enabled(s, step) && Inv(max, s)
    ensures Inv(max, Apply(max, s, step))
  {
    StepEvolves(max, s, step);
    StepKeepsGrants(max, s, step);
    StepKeepsOwners(max, s, step);
    StepKeepsLog(max, s, step);
    StepKeepsLeases(max, s, step);
  }

  predicate Run(max: nat, trace: seq<System>, steps: seq<Step>) {
    && |trace| == |steps| + 1
    && trace[0] == Initial(trace[0].now)
    && forall i | 0 <= i < |steps| :: Enabled(trace[i], steps[i]) && trace[i + 1] == Apply(max, trace[i], steps[i])
  }

  lemma {:induction false} RunKeepsInv(max: nat, trace: seq<System>, steps: seq<Step>, n: nat)
    requires Run(max, trace, steps) && n <= |steps|
    ensures Inv(max, trace[n])
  {
    if n > 0 {
      RunKeepsInv(max, trace, steps, n - 1);
      StepKeepsInv(max, trace[n - 1], steps[n - 1]);
    }
  }

  // ---------------------------------------------------------------------------
  // Theorems
  // ---------------------------------------------------------------------------

  /** In every run at most `max` leases are active, at that moment and at every other. */
  lemma CapacityOfEveryRun(max: nat, trace: seq<System>, steps: seq<Step>, n: nat, now: int)
    requires Run(max, trace, steps) && n <= |steps|
    ensures |LiveLeases(trace[n].pool, now)| <= max
  {
    RunKeepsInv(max, trace, steps, n);
    AccountedBoundsLive(trace[n].pool, max, now);
  }

  /** A consumed lease outlives every possible execution of its workload, in both roles, with probe and guard, unless its
      time was cut short; and it stays active throughout unless it was handed back. */
  lemma ConsumptionIsCovered(max: nat, trace: seq<System>, steps: seq<Step>, n: nat, e: Consumption)
    requires Run(max, trace, steps) && n <= |steps| && e in trace[n].log
    ensures e.grant < |trace[n].grants| && trace[n].grants[e.grant].lease.Some?
    ensures var s, l := trace[n], trace[n].grants[e.grant].lease.value;
            l < |s.pool.leases|
            && (l !in s.shortened ==>
                  forall x | Possible(x, e.timeout, e.invocations) ::
                    && e.at + x.probe + ToolTime(x) + 1 <= s.pool.leases[l].expiresAt
                    && (s.now < e.at + x.probe + ToolTime(x) + 1 && l !in s.returned ==> Live(s.pool.leases[l], s.now)))
  {
    RunKeepsInv(max, trace, steps, n);
    assert GrantInv(trace[n], trace[n].grants[e.grant]);
    var longest := WorkloadIsLongest(e.timeout, e.invocations);
  }

  /** Exactly when a use succeeds: its lease time was checked for the right target within the authorized time and before
      the deadline, on an authorization neither consumed nor closed, and the lease is active when it is read. */
  lemma ConsumeExactly(max: nat, s: System, step: Step)
    requires Enabled(s, step) && Inv(max, s)
    ensures step.Claim? ==>
              var g, t := s.grants[step.grant], Apply(max, s, step).grants[step.grant];
              t.claim == if !g.closed && !g.consumed && g.target == step.target
                            && (forall x | Possible(x, step.timeout, step.invocations) ::
                                  ToolTime(x) <= g.maxExecution && step.t + x.probe + ToolTime(x) + 1 <= g.deadline)
                         then Some(Consumption(step.grant, step.t, step.timeout, step.invocations)) else None
    ensures step.Consume? ==>
              var g, t := s.grants[step.grant], Apply(max, s, step);
              t.log == if Live(s.pool.leases[g.lease.value], step.t) then s.log + [g.claim.value] else s.log
    ensures !step.Consume? ==> Apply(max, s, step).log == s.log
  {
    if step.Claim? {
      var longest := WorkloadIsLongest(step.timeout, step.invocations);
    }
  }

  /** Exactly when the steps of `authorize` go on: one second to one hour that fits the lease with twenty seconds for the
      probe and one for the guard, a lease that is active when inspected, and time enough left when it is issued. */
  lemma AuthorizeExactly(max: nat, s: System, step: Step)
    requires Enabled(s, step) && Inv(max, s)
    ensures step.Authorize? ==>
              var t := Apply(max, s, step);
              if 1 <= step.maxExecution <= 3600 && step.maxExecution + 21 <= step.ttl
              then |t.grants| == |s.grants| + 1 && t.grants[|s.grants|].stage == Requested
                   && t.grants[|s.grants|].target == step.target && t.grants[|s.grants|].deadline == step.t + step.ttl
              else t.grants == s.grants
    ensures step.Inspect? ==>
              Apply(max, s, step).grants[step.grant].stage ==
              if Live(s.pool.leases[s.grants[step.grant].lease.value], step.t) then Inspected else Doomed
    ensures step.Issue? ==>
              Apply(max, s, step).grants[step.grant].stage ==
              if step.built && step.t + s.grants[step.grant].maxExecution + 21 <= s.grants[step.grant].deadline then Issued else Doomed
  {
  }

  /** No two successful consumptions belong to one authorization. */
  lemma ConsumedAtMostOnce(max: nat, trace: seq<System>, steps: seq<Step>, n: nat, i: nat, j: nat)
    requires Run(max, trace, steps) && n <= |steps| && i < |trace[n].log| && j < |trace[n].log|
    requires trace[n].log[i].grant == trace[n].log[j].grant
    ensures i == j
  {
    RunKeepsInv(max, trace, steps, n);
  }

  /** The log grew, but not by a consumption of `g`. */
  predicate NoneFor(earlier: seq<Consumption>, later: seq<Consumption>, g: nat) {
    && earlier <= later
    && forall k | |earlier| <= k < |later| :: later[k].grant != g
  }

  lemma ClosedStays(max: nat, s: System, step: Step, g: nat)
    requires Enabled(s, step) && Inv(max, s) && g < |s.grants| && s.grants[g].closed
    ensures var t := Apply(max, s, step);
            && g < |t.grants| && t.grants[g] == s.grants[g]
            && NoneFor(s.log, t.log, g)
  {
    var t := Apply(max, s, step);
    assert GrantInv(s, s.grants[g]);
    if step.Consume? {
      assert t.log == s.log || t.log == s.log + [s.grants[step.grant].claim.value];
    }
  }

  predicate Unmoved(s: System, t: System, g: nat) {
    g < |s.grants| && g < |t.grants| && t.grants[g] == s.grants[g] && s.grants[g].closed && NoneFor(s.log, t.log, g)
  }

  lemma ClosedStaysInRun(max: nat, trace: seq<System>, steps: seq<Step>, n: nat, g: nat)
    requires Run(max, trace, steps) && n < |steps| && g < |trace[n].grants| && trace[n].grants[g].closed
    ensures Unmoved(trace[n], trace[n + 1], g)
  {
    RunKeepsInv(max, trace, steps, n);
    ClosedStays(max, trace[n], steps[n], g);
  }

  lemma UnmovedTransitive(a: System, b: System, c: System, g: nat)
    requires Unmoved(a, b, g) && Unmoved(b, c, g)
    ensures Unmoved(a, c, g)
  {
    assert forall k | |a.log| <= k < |b.log| :: c.log[k] == b.log[k];
  }

  /** Consecutive states that are each unmoved from the one before. */
  lemma {:induction false} UnmovedAlong(trace: seq<System>, i: nat, j: nat, g: nat)
    requires i <= j < |trace| && g < |trace[i].grants| && trace[i].grants[g].closed
    requires forall n | i <= n < j && g < |trace[n].grants| && trace[n].grants[g].closed :: Unmoved(trace[n], trace[n + 1], g)
    ensures Unmoved(trace[i], trace[j], g)
    decreases j - i
  {
    if i < j {
      UnmovedAlong(trace, i, j - 1, g);
      UnmovedTransitive(trace[i], trace[j - 1], trace[j], g);
    }
  }

  /** What happens to a closed authorization afterwards: nothing. */
  lemma NothingAfterClose(max: nat, trace: seq<System>, steps: seq<Step>, i: nat, j: nat, g: nat)
    requires Run(max, trace, steps) && i <= j <= |steps|
    requires g < |trace[i].grants| && trace[i].grants[g].closed
    ensures Unmoved(trace[i], trace[j], g)
  {
    forall n | i <= n < j && g < |trace[n].grants| && trace[n].grants[g].closed ensures Unmoved(trace[n], trace[n + 1], g) {
      ClosedStaysInRun(max, trace, steps, n, g);
    }
    UnmovedAlong(trace, i, j, g);
  }

  /** A refused or closed authorization leaves no checkout; an open, unconsumed one owns one that is still running
      until its deadline and that no other authorization and no client holds. */
  lemma AuthorizeOwnsOrLeavesNothing(max: nat, trace: seq<System>, steps: seq<Step>, n: nat, g: nat)
    requires Run(max, trace, steps) && n <= |steps| && g < |trace[n].grants|
    ensures var s, grant := trace[n], trace[n].grants[g];
            && (grant.lease.Some? ==> grant.lease.value < |s.pool.leases|)
            && (grant.stage == Refused || grant.closed ==>
                  grant.lease.Some? ==> grant.lease.value !in s.pool.table && !Live(s.pool.leases[grant.lease.value], s.now))
            && (grant.stage == Issued && !grant.closed && !grant.consumed && s.now < grant.deadline ==>
                  && grant.lease.Some? && grant.lease.value in s.pool.table
                  && Live(s.pool.leases[grant.lease.value], s.now)
                  && grant.lease.value !in s.known
                  && forall h | 0 <= h < |s.grants| && h != g :: s.grants[h].lease != grant.lease)
  {
    RunKeepsInv(max, trace, steps, n);
    assert GrantInv(trace[n], trace[n].grants[g]);
  }

  /** Once a lease has been seen expired or released it is never active again, whatever renews it. */
  lemma {:induction false} SeenInactiveStays(max: nat, trace: seq<System>, steps: seq<Step>, i: nat, j: nat, l: nat)
    requires Run(max, trace, steps) && i <= j <= |steps|
    requires l < |trace[i].pool.leases| && trace[i].pool.leases[l].phase != Active
    ensures l < |trace[j].pool.leases| && trace[j].pool.leases[l].phase != Active
    decreases j - i
  {
    if i < j {
      SeenInactiveStays(max, trace, steps, i, j - 1, l);
      RunKeepsInv(max, trace, steps, j - 1);
      StepEvolves(max, trace[j - 1], steps[j - 1]);
    }
  }

  predicate Renewing(s: System, l: nat) {
    s.renewing.Some? && s.renewing.value.lease == l
  }

  /** The lease exists and is not active, and no renewal of it is under way. */
  predicate Over(s: System, l: nat) {
    l < |s.pool.leases| && !Live(s.pool.leases[l], s.now) && !Renewing(s, l)
  }

  predicate SameExpiry(s: System, t: System, l: nat) {
    l < |s.pool.leases| && l < |t.pool.leases| && t.pool.leases[l].expiresAt == s.pool.leases[l].expiresAt
  }

  lemma AcquiredKeepsExpiry(max: nat, s: System, ttl: int, loads: bool, when: seq<int>, l: nat)
    requires l < |s.pool.leases| && |when| == |s.pool.leases|
    ensures SameExpiry(s, Acquired(max, s, ttl, loads, when), l)
  {
  }

  /** Only the second half of a renewal moves the time a lease expires. */
  lemma StepKeepsExpiry(max: nat, s: System, step: Step, l: nat)
    requires Enabled(s, step) && l < |s.pool.leases| && !(step.RenewSet? && Renewing(s, l))
    ensures SameExpiry(s, Apply(max, s, step), l)
  {
    var before := s.(now := step.t);
    match step
    case Acquire(ttl, loads, when, _) => AcquiredKeepsExpiry(max, before, ttl, loads, when, l);
    case CheckOut(g, loads, when, _) => AcquiredKeepsExpiry(max, before, s.grants[g].ttl, loads, when, l);
    case _ =>
  }

  /** A renewal begins only with a held lease that is active at that reading, and ends with its second half. */
  lemma StepBeginsRenewal(max: nat, s: System, step: Step, l: nat)
    requires Enabled(s, step) && Renewing(Apply(max, s, step), l)
    ensures l < |s.pool.leases|
    ensures Renewing(s, l) || (step.RenewCheck? && step.lease == l && Live(s.pool.leases[l], step.t))
  {
  }

  lemma StepKeepsOver(max: nat, s: System, step: Step, l: nat)
    requires Enabled(s, step) && Inv(max, s) && Over(s, l)
    ensures Over(Apply(max, s, step), l)
  {
    StepEvolves(max, s, step);
    StepKeepsExpiry(max, s, step, l);
    if Renewing(Apply(max, s, step), l) {
      StepBeginsRenewal(max, s, step, l);
    }
  }

  lemma OverInRun(max: nat, trace: seq<System>, steps: seq<Step>, n: nat, l: nat)
    requires Run(max, trace, steps) && n < |steps| && Over(trace[n], l)
    ensures Over(trace[n + 1], l)
  {
    RunKeepsInv(max, trace, steps, n);
    StepKeepsOver(max, trace[n], steps[n], l);
  }

  /** In every run a lease that is not active, whether released, seen expired or merely past its time, stays inactive
      for good, unless a renewal of it was already under way. */
  lemma NeverRevived(max: nat, trace: seq<System>, steps: seq<Step>, i: nat, j: nat, l: nat)
    requires Run(max, trace, steps) && i <= j <= |steps| && Over(trace[i], l)
    ensures Over(trace[j], l)
  {
    forall n | i <= n < j && Over(trace[n], l) ensures Over(trace[n + 1], l) {
      OverInRun(max, trace, steps, n, l);
    }
    OverAlong(trace, i, j, l);
  }

  lemma {:induction false} OverAlong(trace: seq<System>, i: nat, j: nat, l: nat)
    requires i <= j < |trace| && Over(trace[i], l)
    requires forall n | i <= n < j && Over(trace[n], l) :: Over(trace[n + 1], l)
    ensures Over(trace[j], l)
    decreases j - i
  {
    if i < j {
      OverAlong(trace, i, j - 1, l);
    }
  }

  /** Exactly one kind of step makes an inactive lease active: the second half of a renewal of it, while nobody has yet
      seen it expired. */
  lemma RevivalIsRenewal(max: nat, s: System, step: Step, l: nat)
    requires Enabled(s, step) && Inv(max, s) && l < |s.pool.leases| && !Live(s.pool.leases[l], s.now)
    ensures l < |Apply(max, s, step).pool.leases|
    ensures var t := Apply(max, s, step);
            Live(t.pool.leases[l], t.now) <==> step.RenewSet? && Renewing(s, l) && s.pool.leases[l].phase == Active
  {
    StepEvolves(max, s, step);
    if !(step.RenewSet? && Renewing(s, l)) {
      StepKeepsExpiry(max, s, step, l);
    }
  }

  /** A step of `steps` that found the lease active when it was about to be renewed. */
  predicate PassedCheck(trace: seq<System>, steps: seq<Step>, k: nat, l: nat)
    requires |trace| == |steps| + 1
  {
    && k < |steps| && steps[k].RenewCheck? && steps[k].lease == l
    && l < |trace[k].pool.leases| && Live(trace[k].pool.leases[l], steps[k].t)
  }

  lemma {:induction false} RenewalWasChecked(max: nat, trace: seq<System>, steps: seq<Step>, n: nat, l: nat) returns (k: nat)
    requires Run(max, trace, steps) && n <= |steps| && Renewing(trace[n], l)
    ensures k < n && PassedCheck(trace, steps, k, l)
  {
    assert n > 0;
    StepBeginsRenewal(max, trace[n - 1], steps[n - 1], l);
    if Renewing(trace[n - 1], l) {
      k := RenewalWasChecked(max, trace, steps, n - 1, l);
    } else {
      k := n - 1;
    }
  }

  /** In every run, a lease that is inactive at one moment and active at a later one was being renewed in between: the
      first check passed before the lease ran out, and the new time was set after. */
  lemma {:induction false} RevivedOnlyByRenewal(max: nat, trace: seq<System>, steps: seq<Step>, i: nat, j: nat, l: nat)
    returns (k: nat, m: nat)
    requires Run(max, trace, steps) && i <= j <= |steps|
    requires l < |trace[i].pool.leases| && !Live(trace[i].pool.leases[l], trace[i].now)
    requires l < |trace[j].pool.leases| && Live(trace[j].pool.leases[l], trace[j].now)
    ensures k < i <= m < j && PassedCheck(trace, steps, k, l)
    ensures steps[m].RenewSet? && Renewing(trace[m], l)
    decreases j - i
  {
    if !Renewing(trace[i], l) {
      NeverRevived(max, trace, steps, i, j, l);
    }
    k := RenewalWasChecked(max, trace, steps, i, l);
    RunKeepsInv(max, trace, steps, i);
    RevivalIsRenewal(max, trace[i], steps[i], l);
    if Live(trace[i + 1].pool.leases[l], trace[i + 1].now) {
      m := i;
    } else {
      var later: nat;
      later, m := RevivedOnlyByRenewal(max, trace, steps, i + 1, j, l);
    }
  }

  /** It does happen: for every time to live there is a run in which a lease is checked at its start, has run out one time
      to live later, and is active again right after. */
  lemma RevivalHappens(max: nat, target: Target, start: int, ttl: int) returns (trace: seq<System>, steps: seq<Step>)
    requires max > 0 && ttl > 0
    ensures Run(max, trace, steps) && |steps| == 4
    ensures |trace[3].pool.leases| == 1 && |trace[4].pool.leases| == 1
    ensures trace[3].now == start + ttl && !Live(trace[3].pool.leases[0], trace[3].now)
    ensures trace[4].now == start + ttl && Live(trace[4].pool.leases[0], trace[4].now)
  {
    var late, renewal := start + ttl, Some(Renewal(0, ttl));
    LateRenewal(max, target, start, ttl);
    trace, steps := RenewalBegins(max, start, ttl);
    trace, steps := OneMoreStep(max, trace, steps, Step.Authorize(target, 0, 0, late), OneLease(late, late, renewal));
    trace, steps := OneMoreStep(max, trace, steps, RenewSet(late), OneLease(late, late + ttl, None));
  }

  lemma RenewalBegins(max: nat, start: int, ttl: int) returns (trace: seq<System>, steps: seq<Step>)
    requires max > 0 && ttl > 0
    ensures Run(max, trace, steps) && |steps| == 2 && trace[2] == OneLease(start, start + ttl, Some(Renewal(0, ttl)))
  {
    FirstGrant(max, start, ttl);
    trace, steps := [Initial(start)], [];
    trace, steps := OneMoreStep(max, trace, steps, Acquire(ttl, true, [], start), OneLease(start, start + ttl, None));
    trace, steps := OneMoreStep(max, trace, steps, RenewCheck(0, ttl, start), OneLease(start, start + ttl, Some(Renewal(0, ttl))));
  }

  predicate Leads(max: nat, s: System, step: Step, t: System) {
    Enabled(s, step) && t == Apply(max, s, step)
  }

  /** A run can be continued by any step that is enabled at its end. */
  lemma OneMoreStep(max: nat, trace: seq<System>, steps: seq<Step>, step: Step, t: System)
    returns (longer: seq<System>, taken: seq<Step>)
    requires Run(max, trace, steps) && Leads(max, trace[|steps|], step, t)
    ensures Run(max, longer, taken) && longer == trace + [t] && taken == steps + [step]
  {
    longer, taken := trace + [t], steps + [step];
    forall i | 0 <= i < |taken| ensures Leads(max, longer[i], taken[i], longer[i + 1]) {
      if i < |steps| {
        assert Leads(max, trace[i], steps[i], trace[i + 1]);
        assert longer[i] == trace[i] && longer[i + 1] == trace[i + 1] && taken[i] == steps[i];
      } else {
        assert longer[i] == trace[|steps|] && longer[i + 1] == t && taken[i] == step;
      }
    }
  }

  /** A client holds one active lease. */
  function OneLease(now: int, expiresAt: int, renewing: Option<Renewal>): System {
    System(now, Pool([Lease(expiresAt, Active)], {0}), renewing, [], {0}, [], {}, {})
  }

  lemma FirstGrant(max: nat, start: int, ttl: int)
    requires max > 0 && ttl > 0
    ensures Leads(max, Initial(start), Acquire(ttl, true, [], start), OneLease(start, start + ttl, None))
    ensures Leads(max, OneLease(start, start + ttl, None), RenewCheck(0, ttl, start), OneLease(start, start + ttl, Some(Renewal(0, ttl))))
  {
    assert Sweep(Pool([], {}), []) == Pool([], {});
  }

  lemma LateRenewal(max: nat, target: Target, start: int, ttl: int)
    requires ttl > 0
    ensures var late, renewal := start + ttl, Some(Renewal(0, ttl));
            && Leads(max, OneLease(start, late, renewal), Step.Authorize(target, 0, 0, late), OneLease(late, late, renewal))
            && Leads(max, OneLease(late, late, renewal), RenewSet(late), OneLease(late, late + ttl, None))
  {
  }

  /** One renewal, undisturbed: the lease is active afterwards exactly when it was held and active at the first of
      the two clock readings, so a lease whose time runs out between them is carried over. */
  lemma RenewActsOnFirstReading(max: nat, s: System, l: nat, ttl: int, first: int, second: int)
    requires Inv(max, s) && Enabled(s, RenewCheck(l, ttl, first)) && first <= second
    ensures var checked := Apply(max, s, RenewCheck(l, ttl, first));
            var held := l in s.pool.table && Live(s.pool.leases[l], first);
            && (checked.renewing.Some? <==> held)
            && (held ==>
                  && Enabled(checked, RenewSet(second))
                  && Apply(max, checked, RenewSet(second)).pool.leases[l] == Lease(second + ttl, Active))
            && (!held ==> !Live(checked.pool.leases[l], first))
  {
  }

  /** At the moment it is issued, an authorization can still be consumed for the longest workload it allows. */
  lemma FreshAuthorizationIsUsable(max: nat, s: System, g: nat, t: int, target: Target, timeout: int, invocations: nat)
    requires Inv(max, s) && Enabled(s, Issue(g, true, t))
    requires Apply(max, s, Issue(g, true, t)).grants[g].stage == Issued
    requires target == s.grants[g].target && Workload(timeout, invocations) <= s.grants[g].maxExecution
    ensures var issued := Apply(max, s, Issue(g, true, t));
            && Enabled(issued, Claim(g, target, timeout, invocations, t))
            && var claimed := Apply(max, issued, Claim(g, target, timeout, invocations, t));
               && Enabled(claimed, Consume(g, t))
               && Apply(max, claimed, Consume(g, t)).log == s.log + [Consumption(g, t, timeout, invocations)]
  {
    var issued := Apply(max, s, Issue(g, true, t));
    StepKeepsInv(max, s, Issue(g, true, t));
    assert GrantInv(issued, issued.grants[g]);
  }
}
