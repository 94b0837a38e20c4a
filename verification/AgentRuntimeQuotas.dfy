/** Quotas hold in every run, and a lease goes to the runtime that comes first. */
module AgentRuntimeQuotas {
  import opened Wrappers
  import opened AgentRuntimeTypes
  import opened AgentRuntimeSpec
  import opened AgentRuntimeRuns
  import opened AgentRuntimeInvariant

  // ---------- Quotas ----------

  function LeaseQuota(q: Quotas): nat { Max(0, Min(q.leasedWorkUnits, q.concurrentAgents)) }

  ghost predicate WithinQuotas(s: State, tenantId: string, q: Quotas, now: int) {
    && |UnexpiredLeases(s, tenantId, now)| <= LeaseQuota(q)
    && |ActiveRuntimes(s, tenantId)| <= Max(0, q.activeRuntimes)
  }

  predicate UsesQuotas(e: Event, q: Quotas) {
    (e.Creation? || e.Leasing?) ==> e.quotas == q
  }

  /** No act gives an expired or absent lease new life, except a grant. */
  lemma ActKeepsExpired(r: Runtime, r': Runtime, e: Event, now: int)
    requires Acts(r, r', e, now) && LeaseAgrees(r) && r'.HoldsUnexpiredLease(now)
    ensures r'.tenantId == r.tenantId
    ensures !e.Leasing? ==> r.HoldsUnexpiredLease(now)
  {
  }

  lemma ActKeepsTerminal(r: Runtime, r': Runtime, e: Event, now: int)
    requires Acts(r, r', e, now) && LeaseAgrees(r) && r.status.Terminal()
    ensures r'.status.Terminal() && r'.tenantId == r.tenantId
  {
  }

  lemma LeasesAfter(s: State, identify: Identify, e: Event, tenantId: string, now: int)
    requires Inv(s)
    ensures var leases := UnexpiredLeases(Apply(s, identify, e, now), tenantId, now);
      if e.Leasing? && e.tenantId == tenantId && NextReady(s, tenantId, |s.order|).Some?
      then leases <= UnexpiredLeases(s, tenantId, now) + {NextReady(s, tenantId, |s.order|).value}
      else leases <= UnexpiredLeases(s, tenantId, now)
  {
    var t := Apply(s, identify, e, now);
    forall k | k in UnexpiredLeases(t, tenantId, now) && k !in UnexpiredLeases(s, tenantId, now)
      ensures e.Leasing? && e.tenantId == tenantId && NextReady(s, tenantId, |s.order|) == Some(k)
    {
      LeaseCameFromGrant(s, identify, e, tenantId, now, k);
    }
  }

  lemma LeaseCameFromGrant(s: State, identify: Identify, e: Event, tenantId: string, now: int, k: Key)
    requires Inv(s)
    ensures var t := Apply(s, identify, e, now);
      k in UnexpiredLeases(t, tenantId, now) && k !in UnexpiredLeases(s, tenantId, now) ==>
      e.Leasing? && e.tenantId == tenantId && NextReady(s, tenantId, |s.order|) == Some(k)
  {
    var t := Apply(s, identify, e, now);
    if k in UnexpiredLeases(t, tenantId, now) && k !in UnexpiredLeases(s, tenantId, now) {
      EntryAfter(s, identify, e, now, k);
      assert k in s.runtimes && RuntimeInv(s.runtimes[k], s.OutputsOf(k));
      ActKeepsExpired(s.runtimes[k], t.runtimes[k], e, now);
      if e.Leasing? {
        LeasedEntryAfter(s, identify, e, now, k);
      }
    }
  }

  lemma ActiveAfter(s: State, identify: Identify, e: Event, tenantId: string, now: int)
    requires Inv(s)
    ensures var active := ActiveRuntimes(Apply(s, identify, e, now), tenantId);
      if e.Creation? && e.context.tenantId == tenantId
      then active <= ActiveRuntimes(s, tenantId) + {Key(tenantId, identify(e.context, e.agentId))}
      else active <= ActiveRuntimes(s, tenantId)
  {
    var t := Apply(s, identify, e, now);
    forall k | k in ActiveRuntimes(t, tenantId) && k !in ActiveRuntimes(s, tenantId)
      ensures e.Creation? && e.context.tenantId == tenantId && k == Key(tenantId, identify(e.context, e.agentId))
    {
      EntryAfter(s, identify, e, now, k);
      if k in s.runtimes {
        assert RuntimeInv(s.runtimes[k], s.OutputsOf(k));
        if t.runtimes[k] != s.runtimes[k] && s.runtimes[k].status.Terminal() {
          ActKeepsTerminal(s.runtimes[k], t.runtimes[k], e, now);
        }
      }
    }
  }

  lemma CallKeepsLeaseQuota(s: State, identify: Identify, e: Event, tenantId: string, q: Quotas, now: int)
    requires Inv(s) && UsesQuotas(e, q) && |UnexpiredLeases(s, tenantId, now)| <= LeaseQuota(q)
    ensures |UnexpiredLeases(Apply(s, identify, e, now), tenantId, now)| <= LeaseQuota(q)
  {
    var before, after := UnexpiredLeases(s, tenantId, now), UnexpiredLeases(Apply(s, identify, e, now), tenantId, now);
    LeasesAfter(s, identify, e, tenantId, now);
    if after <= before {
      SubsetSize(after, before);
    } else {
      SubsetSize(after, before + {NextReady(s, tenantId, |s.order|).value});
    }
  }

  lemma CallKeepsActiveQuota(s: State, identify: Identify, e: Event, tenantId: string, q: Quotas, now: int)
    requires Inv(s) && UsesQuotas(e, q) && |ActiveRuntimes(s, tenantId)| <= Max(0, q.activeRuntimes)
    ensures |ActiveRuntimes(Apply(s, identify, e, now), tenantId)| <= Max(0, q.activeRuntimes)
  {
    var before, after := ActiveRuntimes(s, tenantId), ActiveRuntimes(Apply(s, identify, e, now), tenantId);
    ActiveAfter(s, identify, e, tenantId, now);
    if after <= before {
      SubsetSize(after, before);
    } else {
      SubsetSize(after, before + {Key(tenantId, identify(e.context, e.agentId))});
    }
  }

  lemma LaterHasFewerLeases(s: State, tenantId: string, now: int, later: int)
    requires now <= later
    ensures |UnexpiredLeases(s, tenantId, later)| <= |UnexpiredLeases(s, tenantId, now)|
  {
    SubsetSize(UnexpiredLeases(s, tenantId, later), UnexpiredLeases(s, tenantId, now));
  }

  /** Under fixed quotas, no tenant ever exceeds them: at the time of the last call or at any time after it. */
  lemma {:induction false} QuotasHold(run: seq<Timed>, identify: Identify, tenantId: string, q: Quotas, now: int)
    requires ClockAdvances(run) && forall i :: 0 <= i < |run| ==> UsesQuotas(run[i].event, q)
    requires run != [] ==> run[|run| - 1].now <= now
    ensures WithinQuotas(After(run, identify), tenantId, q, now)
  {
    if run == [] {
      assert UnexpiredLeases(EMPTY, tenantId, now) == {} && ActiveRuntimes(EMPTY, tenantId) == {};
    } else {
      var init, last := run[..|run| - 1], run[|run| - 1];
      QuotasHold(init, identify, tenantId, q, last.now);
      Reachable(init, identify);
      CallKeepsLeaseQuota(After(init, identify), identify, last.event, tenantId, q, last.now);
      CallKeepsActiveQuota(After(init, identify), identify, last.event, tenantId, q, last.now);
      LaterHasFewerLeases(After(run, identify), tenantId, last.now, now);
    }
  }

  // ---------- The next runtime ----------

  /** In a reachable store `leaseNext` only ever changes the least ready runtime of the tenant. */
  lemma LeaseGoesToLeastReady(s: State, identify: Identify, e: Event, now: int, k: Key, other: Key)
    requires Inv(s) && e.Leasing?
    ensures var t := Apply(s, identify, e, now);
      && k in s.runtimes && k in t.runtimes && t.runtimes[k] != s.runtimes[k]
      && other in s.runtimes && other.tenantId == e.tenantId && s.runtimes[other].status == Ready ==>
      k.tenantId == e.tenantId && s.runtimes[k].status == Ready && Before(s.runtimes[k], s.runtimes[other])
  {
    hide Apply, Acts;
    LeasedEntryAfter(s, identify, e, now, k);
    if other in s.runtimes && s.runtimes[other].status == Ready {
      assert RuntimeInv(s.runtimes[other], s.OutputsOf(other));
      var j :| 0 <= j < |s.order| && s.order[j] == other;
      assert other.tenantId == e.tenantId ==> IsCandidate(s, e.tenantId, s.order[j]);
    }
  }
}
