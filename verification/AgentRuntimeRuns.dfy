/** Runs of the store: any sequence of calls, each with the clock it sees and the token it would hand out. */
module AgentRuntimeRuns {
  import opened Wrappers
  import opened AgentRuntimeTypes
  import opened AgentRuntimeSpec

  datatype Event =
    | Creation(agentId: string, context: Context, admitted: bool, quotas: Quotas)
    | Leasing(tenantId: string, workerId: string, leaseMs: int, quotas: Quotas, token: nat)
    | Beating(claim: Claim, leaseMs: int)
    | Resuming(claim: Claim)
    | Pausing(claim: Claim)
    | Publication(claim: Claim, payload: string, wellFormed: bool, bytes: nat, quotas: Quotas)
    | Failure(claim: Claim, code: FailureCode, message: string, quotas: Quotas)
    | Cancellation(key: Key)
    | Supersession(key: Key, successor: string)
    | Recovery(scope: Option<Quotas>)
    | Collection(tenantId: string, retention: int)

  type Identify = (Context, string) -> nat

  ghost function Apply(s: State, identify: Identify, e: Event, now: int): (t: State)
    requires WellFormed(s)
    ensures WellFormed(t)
  {
    match e
    case Creation(agentId, context, admitted, quotas) => Create(s, identify, agentId, context, admitted, quotas, now).0
    case Leasing(tenantId, workerId, leaseMs, quotas, token) =>
      LeaseNext(s, tenantId, workerId, leaseMs, quotas, token, now).0
    case Beating(claim, leaseMs) => SendHeartbeat(s, claim, leaseMs, now).0
    case Resuming(claim) => Transition(s, claim, Running, now).0
    case Pausing(claim) => Transition(s, claim, Waiting, now).0
    case Publication(claim, payload, wellFormed, bytes, quotas) =>
      Publish(s, claim, payload, wellFormed, bytes, quotas, now).0
    case Failure(claim, code, message, quotas) => Fail(s, claim, code, message, quotas, now).0
    case Cancellation(key) => Cancel(s, key, now).0
    case Supersession(key, successor) => Supersede(s, key, successor, now).0
    case Recovery(scope) => Recover(s, scope, now).0
    case Collection(tenantId, retention) => Collect(s, tenantId, retention).0
  }

  /** How one call may change one runtime. */
  ghost predicate Acts(r: Runtime, r': Runtime, e: Event, now: int) {
    match e
    case Creation(_, _, _, _) => false
    case Leasing(_, workerId, leaseMs, quotas, token) =>
      r.status == Ready && !r.Superseded() &&
      r' == if PastDuration(r, quotas.runtimeDurationMs, now) then TimedOut(r, now)
            else Granted(r, workerId, token, leaseMs, now)
    case Beating(claim, leaseMs) => Holds(r, claim, now) && r' == Beaten(r, leaseMs, now)
    case Resuming(claim) =>
      Holds(r, claim, now) && TransitionAllowed(r.status, Running) && r' == r.(status := Running, updatedAt := now)
    case Pausing(claim) =>
      Holds(r, claim, now) && TransitionAllowed(r.status, Waiting) && r' == r.(status := Waiting, updatedAt := now)
    case Publication(claim, _, _, _, _) =>
      Holds(r, claim, now) && r.status in {Running, Waiting} && r' == Published(r, now)
    case Failure(claim, code, message, quotas) =>
      Holds(r, claim, now) && r' == Diagnosed(r, FailStatus(r, code, quotas.retries), code, message, now)
    case Cancellation(_) => !r.status.Terminal() && r' == Released(r, Cancelled, now)
    case Supersession(_, successor) => r' == Released(r, Cancelled, now).(supersededBy := Some(successor))
    case Recovery(scope) => r' == Recovered(r, scope, now)
    case Collection(_, _) => false
  }

  predicate KeepsLease(e: Event) { e.Beating? || e.Resuming? || e.Pausing? }

  predicate EndsLease(e: Event) { e.Publication? || e.Failure? }

  /** A call that presents a claim acts on the runtime the claim names, and only when the fence lets it. */
  ghost predicate OnlyClaimed(s: State, t: State, e: Event, now: int, k: Key)
    requires KeepsLease(e) || EndsLease(e)
  {
    && (k in t.runtimes <==> k in s.runtimes)
    && (k in s.runtimes && t.runtimes[k] != s.runtimes[k] ==>
      k == e.claim.Target() && Acts(s.runtimes[k], t.runtimes[k], e, now))
  }

  lemma KeptEntryAfter(s: State, identify: Identify, e: Event, now: int, k: Key)
    requires WellFormed(s) && KeepsLease(e)
    ensures OnlyClaimed(s, Apply(s, identify, e, now), e, now, k)
  {
  }

  lemma PublishActs(s: State, c: Claim, payload: string, wellFormed: bool, bytes: nat, quotas: Quotas, now: int)
    requires WellFormed(s)
    ensures var t := Publish(s, c, payload, wellFormed, bytes, quotas, now).0;
      t.runtimes == s.runtimes ||
      (Fenced(s, c, now) && s.runtimes[c.Target()].status in {Running, Waiting} &&
       t.runtimes == s.runtimes[c.Target() := Published(s.runtimes[c.Target()], now)])
  {
  }

  lemma FailActs(s: State, c: Claim, code: FailureCode, message: string, quotas: Quotas, now: int)
    requires WellFormed(s)
    ensures var t := Fail(s, c, code, message, quotas, now).0;
      t.runtimes == s.runtimes ||
      (Fenced(s, c, now) && var r := s.runtimes[c.Target()];
       t.runtimes == s.runtimes[c.Target() := Diagnosed(r, FailStatus(r, code, quotas.retries), code, message, now)])
  {
  }

  lemma EndedEntryAfter(s: State, identify: Identify, e: Event, now: int, k: Key)
    requires WellFormed(s) && EndsLease(e)
    ensures OnlyClaimed(s, Apply(s, identify, e, now), e, now, k)
  {
    match e
    case Publication(c, payload, wellFormed, bytes, quotas) =>
      PublishActs(s, c, payload, wellFormed, bytes, quotas, now);
    case Failure(c, code, message, quotas) => FailActs(s, c, code, message, quotas, now);
    case _ => assert false;
  }

  /** `leaseNext` acts on the first ready runtime of the tenant, or on none. */
  lemma LeaseNextActs(s: State, tenantId: string, workerId: string, leaseMs: int, quotas: Quotas, token: nat, now: int)
    requires WellFormed(s)
    ensures var t := LeaseNext(s, tenantId, workerId, leaseMs, quotas, token, now).0;
      var next := NextReady(s, tenantId, |s.order|);
      t.runtimes == s.runtimes ||
      (next.Some? && var r := s.runtimes[next.value];
       t.runtimes == s.runtimes[next.value :=
         if PastDuration(r, quotas.runtimeDurationMs, now) then TimedOut(r, now)
         else Granted(r, workerId, token, leaseMs, now)])
  {
  }

  lemma LeasedEntryAfter(s: State, identify: Identify, e: Event, now: int, k: Key)
    requires WellFormed(s) && e.Leasing?
    ensures var t := Apply(s, identify, e, now);
      (k in t.runtimes <==> k in s.runtimes) &&
      (k in s.runtimes && t.runtimes[k] != s.runtimes[k] ==>
        NextReady(s, e.tenantId, |s.order|) == Some(k) && Acts(s.runtimes[k], t.runtimes[k], e, now))
  {
    LeaseNextActs(s, e.tenantId, e.workerId, e.leaseMs, e.quotas, e.token, now);
  }

  lemma OtherEntryAfter(s: State, identify: Identify, e: Event, now: int, k: Key)
    requires WellFormed(s) && (e.Creation? || e.Cancellation? || e.Supersession? || e.Collection?)
    requires k in Apply(s, identify, e, now).runtimes
    ensures var r' := Apply(s, identify, e, now).runtimes[k];
      if k in s.runtimes then r' == s.runtimes[k] || Acts(s.runtimes[k], r', e, now)
      else e.Creation? && r' == NewRuntime(e.agentId, e.context, k.runtimeId, now) && k.tenantId == e.context.tenantId
  {
  }

  /** Every runtime after a call is new, or was there and is unchanged or changed by one `Acts` step. */
  lemma EntryAfter(s: State, identify: Identify, e: Event, now: int, k: Key)
    requires WellFormed(s) && k in Apply(s, identify, e, now).runtimes
    ensures var r' := Apply(s, identify, e, now).runtimes[k];
      if k in s.runtimes then r' == s.runtimes[k] || Acts(s.runtimes[k], r', e, now)
      else e.Creation? && r' == NewRuntime(e.agentId, e.context, k.runtimeId, now) && k.tenantId == e.context.tenantId
  {
    if KeepsLease(e) {
      KeptEntryAfter(s, identify, e, now, k);
    } else if EndsLease(e) {
      EndedEntryAfter(s, identify, e, now, k);
    } else if e.Leasing? {
      LeasedEntryAfter(s, identify, e, now, k);
    } else if !e.Recovery? {
      OtherEntryAfter(s, identify, e, now, k);
    }
  }

  // ---------- Runs ----------

  datatype Timed = Timed(now: int, event: Event)

  /** The store after the first calls of a run, starting from the empty store. */
  ghost function After(run: seq<Timed>, identify: Identify): (s: State)
    ensures WellFormed(s)
  {
    if run == [] then EMPTY
    else
      var before := After(run[..|run| - 1], identify);
      var last := run[|run| - 1];
      Apply(before, identify, last.event, last.now)
  }

  lemma AfterNext(run: seq<Timed>, identify: Identify, i: nat)
    requires i < |run|
    ensures After(run[..i + 1], identify) == Apply(After(run[..i], identify), identify, run[i].event, run[i].now)
  {
    assert run[..i + 1][..i] == run[..i];
  }

  /** The clock never goes back during the run. */
  ghost predicate ClockAdvances(run: seq<Timed>) {
    forall i, j :: 0 <= i <= j < |run| ==> run[i].now <= run[j].now
  }

  /** No two lease calls are given the same token. */
  ghost predicate TokensAreFresh(run: seq<Timed>) {
    forall i, j :: 0 <= i < j < |run| && run[i].event.Leasing? && run[j].event.Leasing? ==>
      run[i].event.token != run[j].event.token
  }
}
