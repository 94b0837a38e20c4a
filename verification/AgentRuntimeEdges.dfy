/** Boundary behaviour of the store: keys, repeated creation, and what follows `unhealthy`. */
module AgentRuntimeEdges {
  import opened Wrappers
  import opened Text
  import opened AgentRuntimeTypes
  import opened AgentRuntimeSpec
  import opened AgentRuntimeRuns
  import opened AgentRuntimeInvariant
  import opened AgentRuntimeLongestRun

  // ---------- Keys ----------

  /** The key of the store's maps: tenant, NUL, printed runtime id. */
  function MapKey(tenantId: string, printedId: string): string { tenantId + "\0" + printedId }

  /** Keys tell entries apart as long as printed ids have no NUL, whatever the tenants contain. */
  lemma MapKeyIsInjective(tenant: string, id: string, otherTenant: string, otherId: string)
    requires Lacks(id, '\0') && Lacks(otherId, '\0')
    ensures MapKey(tenant, id) == MapKey(otherTenant, otherId) <==> tenant == otherTenant && id == otherId
  {
    var a, b := MapKey(tenant, id), MapKey(otherTenant, otherId);
    if a == b {
      if |tenant| < |otherTenant| {
        NulInside(tenant, id, otherTenant, otherId);
      } else if |otherTenant| < |tenant| {
        NulInside(otherTenant, otherId, tenant, id);
      } else {
        assert a[..|tenant|] == tenant && b[..|tenant|] == otherTenant;
        assert a[|tenant| + 1..] == id && b[|tenant| + 1..] == otherId;
      }
    }
  }

  /** If two keys agree, the longer tenant's separator lies inside the other's id. */
  lemma NulInside(tenant: string, id: string, otherTenant: string, otherId: string)
    requires MapKey(tenant, id) == MapKey(otherTenant, otherId) && |tenant| < |otherTenant|
    ensures |otherTenant| <= |tenant| + |id| && id[|otherTenant| - |tenant| - 1] == '\0'
  {
    var a := MapKey(tenant, id);
    assert a == MapKey(otherTenant, otherId);
    assert a[|otherTenant|] == '\0';
  }

  // ---------- Creating again ----------

  /**
   Creating a runtime that exists gives it back exactly when the request is
   admitted, its context is the same, and the tenant is still below its quota
   of active runtimes: the quota is checked before the runtime is looked up.
   */
  lemma CreatingAgain(
    s: State, identify: Identify, agentId: string, context: Context, admitted: bool, quotas: Quotas, now: int)
    requires WellFormed(s) && Key(context.tenantId, identify(context, agentId)) in s.runtimes
    ensures var existing := s.runtimes[Key(context.tenantId, identify(context, agentId))];
      var (t, result) := Create(s, identify, agentId, context, admitted, quotas, now);
      && t == s
      && (result == Ok(existing) <==>
          admitted && existing.context == context && |ActiveRuntimes(s, context.tenantId)| < quotas.activeRuntimes)
  {
  }

  /** With a quota of one, the second of two equal requests is refused. */
  lemma CreatingAgainAtQuota(identify: Identify, agentId: string, context: Context, quotas: Quotas, now: int)
    requires quotas.activeRuntimes == 1
    ensures var s := Create(EMPTY, identify, agentId, context, true, quotas, now).0;
      Create(s, identify, agentId, context, true, quotas, now) == (s, Err(ActiveQuotaExceeded))
  {
    var k := Key(context.tenantId, identify(context, agentId));
    assert ActiveRuntimes(EMPTY, context.tenantId) == {};
    var s := Create(EMPTY, identify, agentId, context, true, quotas, now).0;
    assert ActiveRuntimes(s, context.tenantId) == {k};
  }

  // ---------- After unhealthy ----------

  /** An unhealthy runtime is never ready or held again, but it can still be cancelled or time out. */
  lemma UnhealthyOnlyEnds(r: Runtime, r': Runtime, e: Event, now: int)
    requires LeaseAgrees(r) && r.status == Unhealthy && Acts(r, r', e, now)
    ensures r'.status in {Unhealthy, Cancelled, Failed}
    ensures r'.status == Cancelled <==> e.Cancellation? || e.Supersession?
    ensures r'.status == Failed <==> e.Recovery? && PastDuration(r, DurationLimit(r, e.scope), now)
  {
  }

  /**
   In a run that creates a runtime without retries, leases it, fails it for a
   transient reason and cancels it, it is unhealthy after three calls and
   cancelled by the fourth.
   */
  lemma UnhealthyIsNotTerminal(identify: Identify)
    ensures var r := Created(identify, 0);
      var run := [Timed(0, CreateCall(0)), Timed(0, LeaseCall(0, 0)), Timed(0, FailCall(r, 0, 0)),
                  Timed(0, Cancellation(KeyOf(r)))];
      var before, after := After(run[..3], identify), After(run, identify);
      && KeyOf(r) in before.runtimes && before.runtimes[KeyOf(r)].status == Unhealthy
      && KeyOf(r) in after.runtimes && after.runtimes[KeyOf(r)].status == Cancelled
  {
    var r := Created(identify, 0);
    var k := KeyOf(r);
    var leased := Granted(r, "worker", 0, 1, 0);
    var failed := Diagnosed(leased, Unhealthy, TransientRuntimeFailure, "", 0);
    var run := [Timed(0, CreateCall(0)), Timed(0, LeaseCall(0, 0)), Timed(0, FailCall(r, 0, 0)),
                Timed(0, Cancellation(k))];
    StartIsReachable(identify, 0);
    LeaseTurns(identify, 0, r, 0);
    FailTurns(identify, 0, leased, 0, 0);
    assert Turns(Alone(leased, 0, 0), Alone(failed, 0, 1), identify, FailCall(r, 0, 0), 0);
    hide Apply;
    assert run[..1] == [Timed(0, CreateCall(0))] && run[..4] == run;
    AfterNext(run, identify, 1);
    AfterNext(run, identify, 2);
    AfterNext(run, identify, 3);
    CancelsUnhealthy(After(run[..3], identify), identify, k);
  }

  lemma CancelsUnhealthy(s: State, identify: Identify, k: Key)
    requires WellFormed(s) && k in s.runtimes && s.runtimes[k].status == Unhealthy
    ensures var t := Apply(s, identify, Cancellation(k), 0); k in t.runtimes && t.runtimes[k].status == Cancelled
  {
  }

  /** A terminal runtime keeps its status under every call but supersession, which cancels it. */
  lemma TerminalStays(r: Runtime, r': Runtime, e: Event, now: int)
    requires LeaseAgrees(r) && r.status.Terminal() && Acts(r, r', e, now)
    ensures r' == r || (e.Supersession? && r'.status == Cancelled)
  {
  }
}
