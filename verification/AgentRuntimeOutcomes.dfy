/** What each store operation decides and does, in terms of the records alone. */
module AgentRuntimeOutcomes {
  import opened Wrappers
  import opened AgentRuntimeTypes
  import opened AgentRuntimeSpec

  // ---------- Records ----------

  /** The runtimes of a tenant that hold a lease not yet expired. */
  ghost function LeasedNow(s: State, tenantId: string, now: int): set<Key> {
    set k | k in s.runtimes && s.runtimes[k].tenantId == tenantId
            && s.runtimes[k].lease.Some? && now < s.runtimes[k].lease.value.expiresAt
  }

  /** The runtimes of a tenant that are not over. */
  ghost function NotOver(s: State, tenantId: string): set<Key> {
    set k | k in s.runtimes && s.runtimes[k].tenantId == tenantId
            && s.runtimes[k].status !in {Completed, Failed, Cancelled}
  }

  /** The runtimes of a tenant that wait for a worker; an empty successor counts as none. */
  ghost function ReadyNow(s: State, tenantId: string): set<Key> {
    set k | k in s.runtimes && s.runtimes[k].tenantId == tenantId && s.runtimes[k].status == Ready
            && s.runtimes[k].supersededBy in {None, Some("")}
  }

  /** `k` is the oldest of `keys`, the one with the least id among equally old ones. */
  ghost predicate IsFirst(s: State, keys: set<Key>, k: Key)
    requires keys <= s.runtimes.Keys
  {
    k in keys && forall other :: other in keys ==>
      s.runtimes[k].createdAt < s.runtimes[other].createdAt ||
      (s.runtimes[k].createdAt == s.runtimes[other].createdAt && s.runtimes[k].runtimeId <= s.runtimes[other].runtimeId)
  }

  /** Only entry `k` differs between the two stores. */
  ghost predicate OnlyChanges(s: State, t: State, k: Key) {
    t.order == s.order && t.runtimes.Keys == s.runtimes.Keys
    && forall other :: other in s.runtimes && other != k ==> t.runtimes[other] == s.runtimes[other]
  }

  /** The claim names the runtime's versions and the worker and token of its lease, which has time left. */
  ghost predicate IsCurrent(s: State, c: Claim, now: int) {
    && c.Target() in s.runtimes
    && var r := s.runtimes[c.Target()];
    && r.executionVersion == c.executionVersion && r.workUnitVersion == c.workUnitVersion
    && r.lease.Some? && r.lease.value.workerId == c.workerId && r.lease.value.claimToken == c.claimToken
    && now < r.lease.value.expiresAt
    && r.supersededBy in {None, Some("")}
  }

  /** The fence lets exactly current claims pass, and tells a missing runtime from a stale claim. */
  lemma FenceOutcome(s: State, c: Claim, now: int)
    ensures Fenced(s, c, now) <==> IsCurrent(s, c, now)
    ensures FenceError(s, c) == if c.Target() in s.runtimes then StaleClaim else RuntimeNotFound
  {
  }

  // ---------- Creating ----------

  /**
   A context that is not admitted is refused, then a tenant with as many runtimes
   as its quota, then a runtime made for another context. Otherwise the runtime
   is the one that exists, or a new one that waits for its first attempt.
   */
  lemma CreateOutcome(
    s: State, identify: (Context, string) -> nat, agentId: string, context: Context, admitted: bool,
    quotas: Quotas, now: int)
    requires WellFormed(s)
    ensures var k := Key(context.tenantId, identify(context, agentId));
      var (t, result) := Create(s, identify, agentId, context, admitted, quotas, now);
      && (result == Err(InvalidExecutionContext) <==> !admitted)
      && (result == Err(ActiveQuotaExceeded) <==> admitted && |NotOver(s, context.tenantId)| >= quotas.activeRuntimes)
      && (admitted && |NotOver(s, context.tenantId)| < quotas.activeRuntimes ==>
          if k in s.runtimes then
            t == s && result == if s.runtimes[k].context == context then Ok(s.runtimes[k]) else Err(IdentityConflict)
          else
            && k in t.runtimes && result == Ok(t.runtimes[k]) && t.runtimes == s.runtimes[k := t.runtimes[k]]
            && t.order == s.order + [k] && t.outputs == s.outputs
            && var r := t.runtimes[k];
            && r.status == Ready && r.attempt == 0 && r.lease == None && r.diagnostics == [] && r.outputVersion == 0
            && r.context == context && r.createdAt == now && r.supersededBy == None && r.agentId == agentId
            && r.executionVersion == context.executionVersion && r.workUnitVersion == context.workUnitVersion)
      && (result.Err? ==> t == s)
  {
    hide WellFormed;
    assert ActiveRuntimes(s, context.tenantId) == NotOver(s, context.tenantId);
  }

  // ---------- Leasing ----------

  /** Exactly a tenant with as many unexpired leases as either quota allows is refused. */
  lemma LeaseIsRefusedAtQuota(
    s: State, tenantId: string, workerId: string, leaseMs: int, quotas: Quotas, token: nat, now: int)
    requires WellFormed(s)
    ensures LeaseNext(s, tenantId, workerId, leaseMs, quotas, token, now).1 == Err(LeaseQuotaExceeded) <==>
            |LeasedNow(s, tenantId, now)| >= Min(quotas.leasedWorkUnits, quotas.concurrentAgents)
    ensures LeaseNext(s, tenantId, workerId, leaseMs, quotas, token, now).1.Err? ==>
      LeaseNext(s, tenantId, workerId, leaseMs, quotas, token, now) == (s, Err(LeaseQuotaExceeded))
  {
    hide WellFormed, NextReady;
    assert UnexpiredLeases(s, tenantId, now) == LeasedNow(s, tenantId, now);
  }

  /** The runtime chosen is the first of those that wait, if any do. */
  lemma FirstWaitsLongest(s: State, tenantId: string)
    requires WellFormed(s)
    ensures var next := NextReady(s, tenantId, |s.order|);
      if ReadyNow(s, tenantId) == {} then next == None
      else next.Some? && IsFirst(s, ReadyNow(s, tenantId), next.value)
  {
    var next := NextReady(s, tenantId, |s.order|);
    forall k | k in ReadyNow(s, tenantId)
      ensures exists i :: 0 <= i < |s.order| && s.order[i] == k && IsCandidate(s, tenantId, s.order[i])
    {
      assert k in s.order;
    }
    if next.Some? {
      assert next.value in ReadyNow(s, tenantId);
    }
  }

  /** The new lease, and the runtime that holds it on its next attempt. */
  ghost predicate IsGrant(r: Runtime, r': Runtime, lease: Lease, workerId: string, token: nat, leaseMs: int, now: int) {
    && lease == Lease(workerId, token, r.attempt + 1, now, now, now + leaseMs)
    && r'.status == Leased && r'.attempt == r.attempt + 1 && r'.lease == Some(lease)
    && r'.workerId == Some(workerId) && r'.diagnostics == r.diagnostics
  }

  /** The runtime has failed for having run too long. */
  ghost predicate IsTimeout(r: Runtime, r': Runtime, now: int) {
    && r'.status == Failed && r'.lease == None && r'.attempt == r.attempt && r'.recoveryCount == r.recoveryCount
    && r'.diagnostics == r.diagnostics + [Diagnostic(RuntimeTimeout, "Runtime duration quota exceeded.", false, now)]
  }

  /** What a lease call does to the runtime that sorts first. */
  lemma LeaseOfNext(
    s: State, tenantId: string, workerId: string, leaseMs: int, quotas: Quotas, token: nat, now: int, k: Key)
    requires WellFormed(s) && NextReady(s, tenantId, |s.order|) == Some(k)
    requires |UnexpiredLeases(s, tenantId, now)| < quotas.leasedWorkUnits
    requires |UnexpiredLeases(s, tenantId, now)| < quotas.concurrentAgents
    ensures var (t, result) := LeaseNext(s, tenantId, workerId, leaseMs, quotas, token, now);
      var r := s.runtimes[k];
      && OnlyChanges(s, t, k) && t.outputs == s.outputs && t.retryCount == s.retryCount
      && if now - r.createdAt < quotas.runtimeDurationMs && now - r.createdAt < r.context.limits.runtimeDurationMs then
           result.Ok? && result.value.Some? && t.failureCount == s.failureCount
           && IsGrant(r, t.runtimes[k], result.value.value, workerId, token, leaseMs, now)
         else
           result == Ok(None) && t.failureCount == s.failureCount + 1 && IsTimeout(r, t.runtimes[k], now)
  {
    hide WellFormed, NextReady, UnexpiredLeases;
  }

  /**
   Below the quotas the first runtime that waits is leased, unless it has run for
   its duration: then it fails, and no lease is granted. Without one, nothing happens.
   */
  lemma LeaseOutcome(
    s: State, tenantId: string, workerId: string, leaseMs: int, quotas: Quotas, token: nat, now: int, k: Key)
    requires WellFormed(s)
    requires |LeasedNow(s, tenantId, now)| < quotas.leasedWorkUnits
    requires |LeasedNow(s, tenantId, now)| < quotas.concurrentAgents
    ensures var (t, result) := LeaseNext(s, tenantId, workerId, leaseMs, quotas, token, now);
      && (ReadyNow(s, tenantId) == {} ==> (t, result) == (s, Ok(None)))
      && (ReadyNow(s, tenantId) != {} && IsFirst(s, ReadyNow(s, tenantId), k) ==>
          var r := s.runtimes[k];
          && OnlyChanges(s, t, k) && t.outputs == s.outputs && t.retryCount == s.retryCount
          && var age := now - r.createdAt;
             if age < quotas.runtimeDurationMs && age < r.context.limits.runtimeDurationMs then
               result.Ok? && result.value.Some? && t.failureCount == s.failureCount
               && IsGrant(r, t.runtimes[k], result.value.value, workerId, token, leaseMs, now)
             else
               result == Ok(None) && t.failureCount == s.failureCount + 1 && IsTimeout(r, t.runtimes[k], now))
  {
    FirstWaitsLongest(s, tenantId);
    assert UnexpiredLeases(s, tenantId, now) == LeasedNow(s, tenantId, now);
    if ReadyNow(s, tenantId) == {} {
      LeaseOfNone(s, tenantId, workerId, leaseMs, quotas, token, now);
    } else if IsFirst(s, ReadyNow(s, tenantId), k) {
      FirstIsUnique(s, tenantId, k, NextReady(s, tenantId, |s.order|).value);
      LeaseOfNext(s, tenantId, workerId, leaseMs, quotas, token, now, k);
    }
    hide LeaseNext, NextReady, WellFormed, UnexpiredLeases, LeasedNow, IsFirst, ReadyNow, OnlyChanges;
    hide IsGrant, IsTimeout;
  }

  lemma LeaseOfNone(
    s: State, tenantId: string, workerId: string, leaseMs: int, quotas: Quotas, token: nat, now: int)
    requires WellFormed(s) && NextReady(s, tenantId, |s.order|) == None
    requires |UnexpiredLeases(s, tenantId, now)| < quotas.leasedWorkUnits
    requires |UnexpiredLeases(s, tenantId, now)| < quotas.concurrentAgents
    ensures LeaseNext(s, tenantId, workerId, leaseMs, quotas, token, now) == (s, Ok(None))
  {
    hide WellFormed, NextReady, UnexpiredLeases;
  }

  lemma FirstIsUnique(s: State, tenantId: string, a: Key, b: Key)
    requires WellFormed(s) && IsFirst(s, ReadyNow(s, tenantId), a) && IsFirst(s, ReadyNow(s, tenantId), b)
    ensures a == b
  {
    assert s.runtimes[a].runtimeId == s.runtimes[b].runtimeId;
  }

  // ---------- Working ----------

  /** A passing heartbeat renews the lease for its full length and adds the time since the last one. */
  lemma HeartbeatOutcome(s: State, c: Claim, leaseMs: int, now: int)
    requires WellFormed(s)
    ensures var (t, result) := SendHeartbeat(s, c, leaseMs, now);
      if !IsCurrent(s, c, now) then (t, result) == (s, Err(FenceError(s, c)))
      else
        var k := c.Target();
        var before := s.runtimes[k].lease.value;
        var waited := Max(0, now - before.heartbeatAt);
        && OnlyChanges(s, t, k) && t.heartbeatLatencyMs == s.heartbeatLatencyMs + waited
        && result == Ok(Lease(before.workerId, before.claimToken, before.attempt, before.leasedAt, now, now + leaseMs))
        && t.runtimes[k].lease == Some(result.value) && t.runtimes[k].status == s.runtimes[k].status
        && t.runtimes[k].heartbeat == Some(Heartbeat(c.workerId, c.claimToken, now, waited))
  {
    hide WellFormed;
  }

  /** Running can be entered from every held status, waiting only from running. */
  lemma TransitionOutcome(s: State, c: Claim, to: Status, now: int)
    requires WellFormed(s) && to in {Running, Waiting}
    ensures var (t, result) := Transition(s, c, to, now);
      if !IsCurrent(s, c, now) then (t, result) == (s, Err(FenceError(s, c)))
      else
        var k := c.Target();
        var from := s.runtimes[k].status;
        if from == Running || (to == Running && from in {Leased, Waiting}) then
          && OnlyChanges(s, t, k) && result == Ok(t.runtimes[k])
          && t.runtimes[k] == s.runtimes[k].(status := to, updatedAt := now)
        else (t, result) == (s, Err(InvalidTransition))
  {
    hide WellFormed;
  }

  /**
   A current claim publishes exactly a well-formed output of at most the quota
   and a mebibyte, while running or waiting. The runtime is then completed.
   */
  lemma PublishOutcome(s: State, c: Claim, payload: string, wellFormed: bool, bytes: nat, quotas: Quotas, now: int)
    requires WellFormed(s)
    ensures var (t, result) := Publish(s, c, payload, wellFormed, bytes, quotas, now);
      var k := c.Target();
      if !IsCurrent(s, c, now) then (t, result) == (s, Err(FenceError(s, c)))
      else if !wellFormed then (t, result) == (s, Err(MalformedOutput))
      else if bytes > quotas.outputBytes || bytes > 1024 * 1024 then (t, result) == (s, Err(OutputQuotaExceeded))
      else if s.runtimes[k].status !in {Running, Waiting} then (t, result) == (s, Err(InvalidTransition))
      else
        && OnlyChanges(s, t, k) && t.runtimes[k].status == Completed && t.runtimes[k].lease == None
        && t.runtimes[k].outputVersion == s.runtimes[k].outputVersion + 1
        && result.Ok? && result.value.payload == payload && result.value.published && !result.value.orphaned
        && t.OutputsOf(k) == s.OutputsOf(k) + [result.value] && t.outputBytes == s.outputBytes + bytes
  {
    hide WellFormed;
  }

  // ---------- Failing ----------

  /** What a failed attempt leads to, by its code and the attempts made. */
  ghost predicate FailsTo(r: Runtime, code: FailureCode, retries: int, status: Status) {
    && (status == Ready <==>
        && code in {TransientRuntimeFailure, RuntimeTimeout, FailureCode.LeaseExpired}
        && r.attempt <= retries && r.attempt <= r.context.limits.retries)
    && (status == Unhealthy <==> status != Ready && code == TransientRuntimeFailure)
    && (status == Failed <==> status != Ready && code != TransientRuntimeFailure)
  }

  /**
   A current claim that fails is retried exactly for a retryable code with
   attempts left; the diagnostic and one counter say so.
   */
  lemma FailOutcome(s: State, c: Claim, code: FailureCode, message: string, quotas: Quotas, now: int)
    requires WellFormed(s)
    ensures var (t, result) := Fail(s, c, code, message, quotas, now);
      if !IsCurrent(s, c, now) then (t, result) == (s, Err(FenceError(s, c)))
      else
        var k := c.Target();
        var status := t.runtimes[k].status;
        && OnlyChanges(s, t, k) && result == Ok(t.runtimes[k]) && t.outputs == s.outputs
        && FailsTo(s.runtimes[k], code, quotas.retries, status)
        && t.runtimes[k].lease == None && t.runtimes[k].attempt == s.runtimes[k].attempt
        && t.runtimes[k].diagnostics == s.runtimes[k].diagnostics + [Diagnostic(code, message, status == Ready, now)]
        && t.retryCount == s.retryCount + (if status == Ready then 1 else 0)
        && t.failureCount == s.failureCount + (if status == Ready then 0 else 1)
  {
    hide WellFormed;
  }

  // ---------- Ending from outside ----------

  /** Exactly a runtime that is not over is cancelled. */
  lemma CancelOutcome(s: State, k: Key, now: int)
    requires WellFormed(s)
    ensures var (t, result) := Cancel(s, k, now);
      if k !in s.runtimes then (t, result) == (s, Err(RuntimeNotFound))
      else if s.runtimes[k].status in {Completed, Failed, Cancelled} then (t, result) == (s, Ok(s.runtimes[k]))
      else
        && OnlyChanges(s, t, k) && result == Ok(t.runtimes[k]) && t.outputs == s.outputs
        && t.runtimes[k].status == Cancelled && t.runtimes[k].lease == None && t.runtimes[k].completedAt == Some(now)
  {
    hide WellFormed;
  }

  /** Any runtime that exists is superseded, and none of its outputs stays published. */
  lemma SupersedeOutcome(s: State, k: Key, successor: string, now: int)
    requires WellFormed(s)
    ensures var (t, result) := Supersede(s, k, successor, now);
      if k !in s.runtimes then (t, result) == (s, Err(RuntimeNotFound))
      else
        && OnlyChanges(s, t, k) && result == Ok(t.runtimes[k])
        && t.runtimes[k].status == Cancelled && t.runtimes[k].lease == None
        && t.runtimes[k].supersededBy == Some(successor) && t.runtimes[k].diagnostics == s.runtimes[k].diagnostics
        && |t.OutputsOf(k)| == |s.OutputsOf(k)|
        && forall i :: 0 <= i < |t.OutputsOf(k)| ==>
             t.OutputsOf(k)[i] == s.OutputsOf(k)[i].(published := false, orphaned := true)
  {
    hide WellFormed;
  }

  // ---------- Recovering ----------

  /** Quotas only lower the limits a runtime has of its own. */
  function LimitOr(own: int, quota: Option<int>): int { if quota.Some? then Min(quota.value, own) else own }

  /**
   What recovery makes of each runtime: one that is over stays; one that has run
   for its duration fails; one whose lease has expired is retried while attempts
   are left, and fails otherwise; every other stays.
   */
  lemma RecoverOutcome(s: State, quotas: Option<Quotas>, now: int, k: Key)
    requires WellFormed(s) && k in s.runtimes
    ensures var t := Recover(s, quotas, now).0;
      var r := s.runtimes[k];
      var duration := if quotas.Some? then Some(quotas.value.runtimeDurationMs) else None;
      var durationMs := LimitOr(r.context.limits.runtimeDurationMs, duration);
      var retries := LimitOr(r.context.limits.retries, if quotas.Some? then Some(quotas.value.retries) else None);
      && t.order == s.order && k in t.runtimes && var r' := t.runtimes[k];
      if r.status in {Completed, Failed, Cancelled} then r' == r
      else if now - r.createdAt >= durationMs then
        IsTimeout(r, r', now)
      else if r.lease.Some? && r.lease.value.expiresAt <= now then
        && r'.status == (if r.attempt <= retries then Ready else Failed)
        && r'.lease == None && r'.attempt == r.attempt && r'.recoveryCount == r.recoveryCount + 1
        && r'.diagnostics == r.diagnostics +
           [Diagnostic(FailureCode.LeaseExpired, "Expired runtime lease recovered.", r.attempt <= retries, now)]
      else r' == r
  {
    hide WellFormed, WithdrawOutputs, Outcomes;
  }
}
