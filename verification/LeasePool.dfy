/** The capacity-limited licence allocator: leases, the table of checkouts, and the single-use authorization.

    The value functions describe what each locked region does to every lease the provider ever issued; the
    classes hold the fields the program updates and are proved against those functions.
 */
module LeasePool {
  import opened Wrappers
  import opened Counting

  const VERSION_PROBE_SECONDS := 20
  const COMPLETION_GUARD_SECONDS := 1
  const MAX_EXECUTION_SECONDS := 3600

  datatype Phase = Active | Expired | Released

  datatype Lease = Lease(expiresAt: int, phase: Phase)

  /** Every lease issued so far, in issue order, and the indices that are still in the table of checkouts. */
  datatype Pool = Pool(leases: seq<Lease>, table: set<nat>)

  predicate Live(lease: Lease, now: int) {
    lease.phase == Active && now < lease.expiresAt
  }

  /** Reading the state of a lease marks it once its time is over. */
  function Observe(lease: Lease, now: int): Lease {
    if lease.phase == Active && now >= lease.expiresAt then lease.(phase := Expired) else lease
  }

  function Look(p: Pool, i: nat, now: int): Pool
    requires i < |p.leases|
  {
    p.(leases := p.leases[i := Observe(p.leases[i], now)])
  }

  /** `_discard_inactive`, where lease `i` is read at `when[i]`. */
  function Sweep(p: Pool, when: seq<int>): Pool
    requires |when| == |p.leases|
  {
    Pool(
      seq(|p.leases|, i requires 0 <= i < |p.leases| =>
        if i in p.table && !Live(p.leases[i], when[i]) then p.leases[i].(phase := Released) else p.leases[i]),
      set i | i in p.table && i < |p.leases| && Live(p.leases[i], when[i]))
  }

  function Grant(p: Pool, expiresAt: int): Pool {
    Pool(p.leases + [Lease(expiresAt, Active)], p.table + {|p.leases|})
  }

  /** `release` of a lease this provider issued. */
  function Drop(p: Pool, i: nat): Pool
    requires i < |p.leases|
  {
    if i in p.table then Pool(p.leases[i := p.leases[i].(phase := Released)], p.table - {i}) else p
  }

  /** `release` of a foreign lease whose identifier happens to be `i`: the entry goes, the lease stays as it is. */
  function Forget(p: Pool, i: nat): Pool {
    p.(table := p.table - {i})
  }

  function Extend(p: Pool, i: nat, expiresAt: int): Pool
    requires i < |p.leases|
  {
    p.(leases := p.leases[i := p.leases[i].(expiresAt := expiresAt)])
  }

  predicate WithinTimes(when: seq<int>, from: int, to: int) {
    forall i | 0 <= i < |when| :: from <= when[i] <= to
  }

  /** The table of checkouts holds exactly the leases that have not been released, and never too many. */
  predicate Accounted(p: Pool, max: nat) {
    && |p.table| <= max
    && (forall i | i in p.table :: i < |p.leases|)
    && (forall i | 0 <= i < |p.leases| :: p.leases[i].phase == Released <==> i !in p.table)
  }

  function LiveLeases(p: Pool, now: int): set<nat> {
    set i | 0 <= i < |p.leases| && Live(p.leases[i], now)
  }

  lemma AccountedBoundsLive(p: Pool, max: nat, now: int)
    requires Accounted(p, max)
    ensures LiveLeases(p, now) <= p.table
    ensures |LiveLeases(p, now)| <= max
  {
    SubsetSize(LiveLeases(p, now), p.table);
  }

  lemma SweepKeepsAccounts(p: Pool, max: nat, when: seq<int>)
    requires Accounted(p, max) && |when| == |p.leases|
    ensures Accounted(Sweep(p, when), max)
  {
    SubsetSize(Sweep(p, when).table, p.table);
  }

  /** Reading every lease in the table and popping those read as inactive is a sweep. */
  lemma SweepByPopping(before: Pool, read: Pool, after: Pool, when: seq<int>, stale: seq<nat>)
    requires |when| == |before.leases| == |read.leases| == |after.leases|
    requires read.table == before.table && forall i | i in before.table :: i < |before.leases|
    requires forall i | 0 <= i < |before.leases| ::
               read.leases[i] == if i in before.table then Observe(before.leases[i], when[i]) else before.leases[i]
    requires forall i :: i in stale <==> i in before.table && !Live(before.leases[i], when[i])
    requires forall i :: i in after.table <==> i in before.table && i !in stale
    requires forall i | 0 <= i < |before.leases| ::
               after.leases[i] == if i in stale then read.leases[i].(phase := Released) else read.leases[i]
    ensures after == Sweep(before, when)
  {
    assert after.leases == Sweep(before, when).leases;
    assert after.table == Sweep(before, when).table;
  }

  /** Popping an entry under a foreign lease's identifier keeps the books exactly when there is no such entry. */
  lemma ForeignReleaseBreaksAccounts(p: Pool, max: nat, i: nat)
    requires Accounted(p, max)
    ensures Accounted(Forget(p, i), max) <==> i !in p.table
  {
    if i !in p.table {
      assert Forget(p, i).table == p.table;
    } else {
      assert p.leases[i].phase != Released;
    }
  }

  /** What it costs: after a foreign release and one grant into the freed entry, more leases than the capacity are
      active if and only if the capacity was fully used by active leases before. */
  lemma ForeignReleaseExceedsCapacity(p: Pool, max: nat, i: nat, expiresAt: int, now: int)
    requires Accounted(p, max) && i in p.table && now < expiresAt
    ensures |Forget(p, i).table| < max
    ensures |LiveLeases(Grant(Forget(p, i), expiresAt), now)| > max <==> |LiveLeases(p, now)| == max
  {
    assert p.table == Forget(p, i).table + {i};
    var after := Grant(Forget(p, i), expiresAt);
    assert forall k | 0 <= k < |p.leases| :: after.leases[k] == p.leases[k];
    assert LiveLeases(after, now) == LiveLeases(p, now) + {|p.leases|};
    AccountedBoundsLive(p, max, now);
  }

  /** With one checkout allowed, two leases are active. */
  lemma ForeignReleaseWitness()
    ensures var p := Pool([Lease(10, Active)], {0});
            Accounted(p, 1) && LiveLeases(Grant(Forget(p, 0), 10), 0) == {0, 1}
  {
    var p := Pool([Lease(10, Active)], {0});
    assert LiveLeases(Grant(Forget(p, 0), 10), 0) == {0, 1};
  }

  // ---------------------------------------------------------------------------
  // The mutable objects
  // ---------------------------------------------------------------------------

  /** A wall clock that never goes back. */
  class Clock {
    var now: int

    method Read() returns (t: int)
      modifies this
      ensures old(now) <= now == t
    {
      var elapsed: nat :| true;
      now := now + elapsed;
      t := now;
    }
  }

  class LicenseLease {
    const id: nat
    var expiresAt: int
    var phase: Phase

    function View(): Lease
      reads this
    {
      Lease(expiresAt, phase)
    }

    constructor (id: nat, expiresAt: int)
      ensures this.id == id && View() == Lease(expiresAt, Active)
    {
      this.id := id;
      this.expiresAt := expiresAt;
      this.phase := Active;
    }

    method State(clock: Clock) returns (state: Phase)
      modifies this`phase, clock
      ensures old(clock.now) <= clock.now
      ensures View() == Observe(old(View()), clock.now) && state == phase
    {
      var t := clock.Read();
      if phase == Active && t >= expiresAt {
        phase := Expired;
      }
      state := phase;
    }

    method Release()
      modifies this`phase
      ensures View() == old(View()).(phase := Released)
    {
      phase := Released;
    }
  }

  class HostModuleLicenseProvider {
    const maxCheckouts: nat
    var active: map<nat, LicenseLease>
    var counter: nat
    ghost var issued: seq<LicenseLease>

    ghost predicate Valid()
      reads this, issued
    {
      && |issued| == counter
      && (forall i | 0 <= i < |issued| :: issued[i].id == i)
      && (forall i | i in active :: i < |issued| && active[i] == issued[i])
    }

    ghost function View(): (p: Pool)
      requires Valid()
      reads this, issued
    {
      Pool(seq(|issued|, i requires 0 <= i < |issued| reads this, issued => issued[i].View()), active.Keys)
    }

    constructor (maxCheckouts: nat)
      requires maxCheckouts > 0
      ensures Valid() && this.maxCheckouts == maxCheckouts && issued == []
      ensures View() == Pool([], {}) && Accounted(View(), maxCheckouts)
    {
      this.maxCheckouts := maxCheckouts;
      active := map[];
      counter := 0;
      issued := [];
    }

    /** The identifiers whose lease is read as inactive, in ascending order; `when[k]` is the time of the read. */
    method FindStale(clock: Clock) returns (stale: seq<nat>, ghost when: seq<int>)
      requires Valid()
      modifies issued, clock
      ensures Valid() && old(clock.now) <= clock.now
      ensures |when| == |issued| && WithinTimes(when, old(clock.now), clock.now)
      ensures forall k | 0 <= k < |issued| :: issued[k].View() ==
                                              if k in active then Observe(old(issued[k].View()), when[k]) else old(issued[k].View())
      ensures forall k :: k in stale <==> k in active && !Live(old(issued[k].View()), when[k])
      ensures forall a, b | 0 <= a < b < |stale| :: stale[a] < stale[b]
    {
      stale := [];
      when := [];
      for i := 0 to counter
        invariant old(clock.now) <= clock.now
        invariant |when| == i && WithinTimes(when, old(clock.now), clock.now)
        invariant forall k | i <= k < |issued| :: issued[k].View() == old(issued[k].View())
        invariant forall k | 0 <= k < i :: issued[k].View() ==
                                           if k in active then Observe(old(issued[k].View()), when[k]) else old(issued[k].View())
        invariant forall k :: k in stale <==> k < i && k in active && !Live(old(issued[k].View()), when[k])
        invariant forall a, b | 0 <= a < b < |stale| :: stale[a] < stale[b]
      {
        if i in active {
          assert active[i] == issued[i];
          var state := active[i].State(clock);
          when := when + [clock.now];
          if state != Active {
            assert forall a | 0 <= a < |stale| :: stale[a] in stale;
            stale := stale + [i];
          }
        } else {
          when := when + [clock.now];
        }
      }
    }

    method DiscardInactive(clock: Clock) returns (ghost when: seq<int>)
      requires Valid()
      modifies this`active, issued, clock
      ensures Valid() && issued == old(issued) && old(clock.now) <= clock.now
      ensures |when| == |issued| && WithinTimes(when, old(clock.now), clock.now)
      ensures View() == Sweep(old(View()), when)
    {
      ghost var before := View();
      var stale;
      stale, when := FindStale(clock);
      ghost var read := View();
      PopAndRelease(stale);
      SweepByPopping(before, read, View(), when, stale);
    }

    /** The second loop: pops and releases each of the identifiers found. */
    method PopAndRelease(stale: seq<nat>)
      requires Valid() && forall a, b | 0 <= a < b < |stale| :: stale[a] < stale[b]
      requires forall k | k in stale :: k in active
      modifies this`active, issued
      ensures Valid() && issued == old(issued)
      ensures forall k :: k in active <==> k in old(active) && k !in stale
      ensures forall k | 0 <= k < |issued| :: issued[k].View() ==
                                              if k in stale then old(issued[k].View()).(phase := Released) else old(issued[k].View())
    {
      var j := 0;
      while j < |stale|
        invariant j <= |stale| && Valid()
        invariant forall k :: k in active <==> k in old(active) && k !in stale[..j]
        invariant forall k | 0 <= k < |issued| :: issued[k].View() ==
                                                  if k in stale[..j] then old(issued[k].View()).(phase := Released) else old(issued[k].View())
      {
        assert stale[j] in stale && stale[j] !in stale[..j];
        active[stale[j]].Release();
        active := active - {stale[j]};
        assert stale[..j + 1] == stale[..j] + [stale[j]];
        j := j + 1;
      }
      assert stale[..j] == stale;
    }

    /** A checkout, or `None` when the capacity is used up or the module environment does not load. */
    method Acquire(ttl: nat, environmentLoads: bool, clock: Clock)
      returns (r: Option<LicenseLease>, ghost when: seq<int>)
      requires Valid() && ttl > 0
      modifies this, issued, clock
      ensures Valid() && old(clock.now) <= clock.now
      ensures |when| == |old(issued)| && WithinTimes(when, old(clock.now), clock.now)
      ensures var swept := Sweep(old(View()), when);
              if environmentLoads && |swept.table| < maxCheckouts
              then r.Some? && fresh(r.value) && issued == old(issued) + [r.value] && r.value.id == old(counter)
                   && View() == Grant(swept, clock.now + ttl)
              else r.None? && issued == old(issued) && View() == swept
    {
      when := DiscardInactive(clock);
      if |active| >= maxCheckouts || !environmentLoads {
        return None, when;
      }
      var t := clock.Read();
      var lease := CheckOut(t + ttl);
      r := Some(lease);
    }

    method CheckOut(expiresAt: int) returns (lease: LicenseLease)
      requires Valid()
      modifies this`active, this`counter, this`issued
      ensures Valid() && fresh(lease) && lease.id == old(counter)
      ensures issued == old(issued) + [lease]
      ensures View() == Grant(old(View()), expiresAt)
    {
      ghost var before := View();
      counter := counter + 1;
      lease := new LicenseLease(counter - 1, expiresAt);
      active := active[lease.id := lease];
      issued := issued + [lease];
      assert View().leases == Grant(before, expiresAt).leases;
    }

    /** Renews only a lease found in the table and unexpired at `checked`; the new time counts from `reset`.  Any other
        lease, a foreign one included, is only read. */
    method Renew(lease: LicenseLease, ttl: nat, clock: Clock) returns (state: Phase, ghost checked: int, ghost reset: int)
      requires Valid() && ttl > 0
      modifies lease, clock
      ensures Valid() && issued == old(issued)
      ensures old(clock.now) <= checked <= reset <= clock.now
      ensures state == lease.phase
      ensures lease in issued ==>
                var before := old(View());
                View() == (if lease.id in before.table && Live(before.leases[lease.id], checked)
                           then Look(Extend(before, lease.id, reset + ttl), lease.id, clock.now)
                           else Look(before, lease.id, clock.now))
      ensures lease !in issued ==> View() == old(View()) && lease.View() == Observe(old(lease.View()), clock.now)
    {
      ghost var before := View();
      ghost var i := lease.id;
      assert lease in issued ==> issued[i] == lease;
      if lease.id !in active || active[lease.id] != lease {
        state := lease.State(clock);
        checked, reset := clock.now, clock.now;
        if lease in issued {
          assert View().leases == Look(before, i, clock.now).leases;
        } else {
          assert View().leases == before.leases;
        }
        return;
      }
      assert issued[i] == lease;
      state := lease.State(clock);
      checked := clock.now;
      if state != Active {
        reset := clock.now;
        state := lease.State(clock);
        assert View().leases == Look(before, i, clock.now).leases;
        return;
      }
      var t := clock.Read();
      reset := t;
      lease.expiresAt := t + ttl;
      state := lease.State(clock);
      assert View().leases == Look(Extend(before, i, t + ttl), i, clock.now).leases;
    }

    method Release(lease: LicenseLease, clock: Clock) returns (state: Phase)
      requires Valid()
      modifies this`active, lease`phase, clock
      ensures Valid() && old(clock.now) <= clock.now && issued == old(issued)
      ensures lease in issued ==> View() == Look(Drop(old(View()), lease.id), lease.id, clock.now)
      ensures lease !in issued ==> View() == Forget(old(View()), lease.id)
      ensures state == lease.phase
    {
      ghost var before := View();
      ghost var i := lease.id;
      var owned := if lease.id in active then Some(active[lease.id]) else None;
      active := active - {lease.id};
      if owned == Some(lease) {
        assert issued[i] == lease;
        lease.Release();
      }
      state := lease.State(clock);
      if lease in issued {
        assert issued[i] == lease;
        assert View().leases == Look(Drop(before, i), i, clock.now).leases;
        assert View().table == Drop(before, i).table;
      } else {
        assert View().leases == before.leases;
      }
    }
  }
}
