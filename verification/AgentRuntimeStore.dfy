/** The in-memory store: mutable runtime records in a map, each method proved against AgentRuntimeSpec. */
module AgentRuntimeStore {
  import opened Wrappers
  import opened AgentRuntimeTypes
  import Spec = AgentRuntimeSpec
  import opened AgentRuntimeRecoverySteps
  import opened AgentRuntimeRetention

  /** A runtime record. Identity and context are fixed; everything else is assigned in place. */
  class AgentRuntime {
    const tenantId: string
    const runtimeId: nat
    const agentId: string
    const executionVersion: string
    const workUnitVersion: string
    const context: Context
    const createdAt: int
    var workerId: Option<string>
    var status: Status
    var attempt: nat
    var lease: Option<Lease>
    var heartbeat: Option<Heartbeat>
    var diagnostics: seq<Diagnostic>
    var outputVersion: nat
    var supersededBy: Option<string>
    var recoveryCount: nat
    var updatedAt: int
    var startedAt: Option<int>
    var completedAt: Option<int>

    /** The record's contents, which is also the immutable clone handed to callers. */
    function Value(): Runtime
      reads this
    {
      Runtime(tenantId, runtimeId, agentId, executionVersion, workUnitVersion, context, createdAt,
              workerId, status, attempt, lease, heartbeat, diagnostics, outputVersion,
              supersededBy, recoveryCount, updatedAt, startedAt, completedAt)
    }

    constructor (agentId: string, context: Context, runtimeId: nat, now: int)
      ensures this.tenantId == context.tenantId && this.runtimeId == runtimeId
      ensures Value() == Spec.NewRuntime(agentId, context, runtimeId, now)
    {
      this.tenantId, this.runtimeId, this.agentId := context.tenantId, runtimeId, agentId;
      this.executionVersion, this.workUnitVersion := context.executionVersion, context.workUnitVersion;
      this.context, this.createdAt := context, now;
      workerId, status, attempt, lease, heartbeat := None, Ready, 0, None, None;
      diagnostics, outputVersion, supersededBy, recoveryCount := [], 0, None, 0;
      updatedAt, startedAt, completedAt := now, None, None;
    }

    method Grant(workerId: string, token: nat, leaseMs: int, now: int)
      modifies this
      ensures Value() == Spec.Granted(old(Value()), workerId, token, leaseMs, now)
    {
      var granted := Lease(workerId, token, attempt + 1, now, now, now + leaseMs);
      attempt := granted.attempt;
      this.workerId := Some(workerId);
      lease := Some(granted);
      status := Leased;
      updatedAt := now;
      if startedAt.None? {
        startedAt := Some(now);
      }
    }

    method Beat(leaseMs: int, now: int) returns (latency: nat)
      requires lease.Some?
      modifies this
      ensures Value() == Spec.Beaten(old(Value()), leaseMs, now)
      ensures latency == Spec.BeatLatency(old(Value()), now) && lease.Some?
    {
      latency := Max(0, now - lease.value.heartbeatAt);
      lease := Some(lease.value.(heartbeatAt := now, expiresAt := now + leaseMs));
      heartbeat := Some(Heartbeat(lease.value.workerId, lease.value.claimToken, now, latency));
      updatedAt := now;
    }

    method MoveTo(status: Status, now: int)
      modifies this`status, this`updatedAt
      ensures Value() == old(Value()).(status := status, updatedAt := now)
    {
      this.status := status;
      updatedAt := now;
    }

    method Complete(now: int)
      modifies this
      ensures Value() == Spec.Published(old(Value()), now)
    {
      outputVersion := outputVersion + 1;
      status, lease, workerId := Completed, None, None;
      updatedAt, completedAt := now, Some(now);
    }

    method Release(status: Status, now: int)
      modifies this
      ensures Value() == Spec.Released(old(Value()), status, now)
    {
      this.status, lease, workerId := status, None, None;
      updatedAt, completedAt := now, if status == Ready then None else Some(now);
    }

    method Supersede(successor: string, now: int)
      modifies this
      ensures Value() == Spec.Released(old(Value()), Cancelled, now).(supersededBy := Some(successor))
    {
      supersededBy := Some(successor);
      Release(Cancelled, now);
    }

    method Diagnose(status: Status, code: FailureCode, message: string, now: int)
      modifies this
      ensures Value() == Spec.Diagnosed(old(Value()), status, code, message, now)
    {
      Release(status, now);
      diagnostics := diagnostics + [Diagnostic(code, message, status == Ready, now)];
    }

    method Expire(status: Status, now: int)
      modifies this
      ensures Value() == Spec.Diagnosed(old(Value()), status, LeaseExpired, Spec.EXPIRED_MESSAGE, now)
                             .(recoveryCount := old(recoveryCount) + 1)
    {
      recoveryCount := recoveryCount + 1;
      Diagnose(status, LeaseExpired, Spec.EXPIRED_MESSAGE, now);
    }
  }

  class MemoryAgentRuntimeStore {
    const identify: (Context, string) -> nat
    var runtimes: map<Key, AgentRuntime>
    var order: seq<Key>
    var runtimeOutputs: map<Key, seq<Output>>
    var retryCount: int
    var failureCount: int
    var heartbeatLatencyMs: int
    var outputBytes: int
    var recoveryTotal: int

    ghost function Records(): (records: map<Key, Runtime>)
      reads this`runtimes, runtimes.Values
      ensures records.Keys == runtimes.Keys
    {
      map k | k in runtimes :: runtimes[k].Value()
    }

    ghost function Model(): State
      reads this, runtimes.Values
    {
      State(Records(), order, runtimeOutputs, retryCount, failureCount, heartbeatLatencyMs, outputBytes, recoveryTotal)
    }

    /** Every record is stored under its own key, hence under one key only. */
    ghost predicate Keyed()
      reads this`runtimes
    {
      forall k :: k in runtimes ==> Key(runtimes[k].tenantId, runtimes[k].runtimeId) == k
    }

    ghost predicate Valid()
      reads this, runtimes.Values
    {
      Keyed() && Spec.WellFormed(Model())
    }

    constructor (identify: (Context, string) -> nat)
      ensures Valid() && Model() == Spec.EMPTY && runtimes == map[] && this.identify == identify
    {
      this.identify := identify;
      runtimes, order, runtimeOutputs := map[], [], map[];
      retryCount, failureCount, heartbeatLatencyMs, outputBytes, recoveryTotal := 0, 0, 0, 0, 0;
    }

    method CountActive(tenantId: string) returns (active: nat)
      requires Valid()
      ensures active == |Spec.ActiveRuntimes(Model(), tenantId)|
    {
      hide Spec.WellFormed, Records, CountVisited, Spec.ActiveRuntimes;
      ghost var s := Model();
      ghost var chosen := Spec.ActiveRuntimes(s, tenantId);
      ActiveAreEntries(s, tenantId);
      CountAll(s, chosen);
      active := 0;
      for i := 0 to |order|
        invariant active == CountVisited(order, chosen, i)
      {
        EntryAt(i);
        CountNext(s, chosen, i);
        ActiveAt(s, tenantId, order[i]);
        var runtime := runtimes[order[i]];
        if runtime.tenantId == tenantId && !runtime.status.Terminal() {
          active := active + 1;
        }
      }
    }

    method Insert(key: Key, runtime: AgentRuntime)
      requires Valid() && key !in runtimes && Key(runtime.tenantId, runtime.runtimeId) == key
      modifies this`runtimes, this`order
      ensures runtimes == old(runtimes)[key := runtime] && Keyed()
      ensures Model() == old(Model()).(runtimes := old(Records())[key := runtime.Value()], order := old(order) + [key])
    {
      runtimes, order := runtimes[key := runtime], order + [key];
      assert Records() == old(Records())[key := runtime.Value()];
    }

    method Create(agentId: string, context: Context, admitted: bool, quotas: Quotas, now: int)
      returns (r: Result<Runtime, StoreError>)
      requires Valid()
      modifies this
      ensures fresh(runtimes.Values - old(runtimes.Values))
      ensures (Model(), r) == Spec.Create(old(Model()), identify, agentId, context, admitted, quotas, now)
      ensures Valid()
    {
      hide Spec.WellFormed, Spec.ActiveRuntimes, Spec.NewRuntime, Records;
      if !admitted {
        return Err(InvalidExecutionContext);
      }
      var active := CountActive(context.tenantId);
      if active >= quotas.activeRuntimes {
        return Err(ActiveQuotaExceeded);
      }
      var runtimeId := identify(context, agentId);
      var key := Key(context.tenantId, runtimeId);
      if key in runtimes {
        RecordAt(key);
        if runtimes[key].context != context {
          return Err(IdentityConflict);
        }
        return Ok(runtimes[key].Value());
      }
      var runtime := new AgentRuntime(agentId, context, runtimeId, now);
      Insert(key, runtime);
      r := Ok(runtime.Value());
    }

    lemma RecordAt(key: Key)
      requires key in runtimes
      ensures key in Records() && Records()[key] == runtimes[key].Value()
    {
    }

    lemma EntryAt(i: nat)
      requires Valid() && i < |order|
      ensures order[i] in runtimes && Records()[order[i]] == runtimes[order[i]].Value()
    {
      assert order[i] in order && order[i] in Model().runtimes;
    }

    /** If one record changed and the map did not, the model changed at one key. */
    twostate lemma OneRecordChanged(key: Key)
      requires old(Keyed()) && runtimes == old(runtimes) && key in runtimes
      requires forall k :: k in runtimes && k != key ==> unchanged(runtimes[k])
      ensures Records() == old(Records())[key := runtimes[key].Value()]
    {
    }

    method Cancel(key: Key, now: int) returns (r: Result<Runtime, StoreError>)
      requires Valid()
      modifies this, runtimes.Values
      ensures runtimes == old(runtimes)
      ensures (Model(), r) == Spec.Cancel(old(Model()), key, now)
      ensures Valid()
    {
      if key !in runtimes {
        return Err(RuntimeNotFound);
      }
      var runtime := runtimes[key];
      if !runtime.status.Terminal() {
        runtime.Release(Cancelled, now);
        OneRecordChanged(key);
      }
      r := Ok(runtime.Value());
    }

    method OrphanOutputs(key: Key)
      modifies this`runtimeOutputs
      ensures Model() ==
        old(Model()).(outputs := old(runtimeOutputs)[key := Spec.Orphaned(old(Model()).OutputsOf(key))])
    {
      hide Records;
      ghost var records := Records();
      runtimeOutputs := runtimeOutputs[key := Spec.Orphaned(if key in runtimeOutputs then runtimeOutputs[key] else [])];
      assert Records() == records;
    }

    method Supersede(key: Key, successor: string, now: int) returns (r: Result<Runtime, StoreError>)
      requires Valid()
      modifies this, runtimes.Values
      ensures runtimes == old(runtimes)
      ensures (Model(), r) == Spec.Supersede(old(Model()), key, successor, now)
      ensures Valid()
    {
      if key !in runtimes {
        return Err(RuntimeNotFound);
      }
      hide Spec.WellFormed, Records, Spec.Orphaned;
      RecordAt(key);
      var runtime := runtimes[key];
      runtime.Supersede(successor, now);
      OneRecordChanged(key);
      OrphanOutputs(key);
      r := Ok(runtime.Value());
    }

    /** The fence: the record the claim names, if the claim is current. */
    method Fence(c: Claim, now: int) returns (r: Result<AgentRuntime, StoreError>)
      requires Valid()
      ensures r.Ok? <==> Spec.Fenced(Model(), c, now)
      ensures r.Ok? ==> c.Target() in runtimes && r.value == runtimes[c.Target()]
      ensures r.Ok? ==> c.Target() in Records() && r.value.Value() == Records()[c.Target()]
      ensures r.Err? ==> r.error == Spec.FenceError(Model(), c)
    {
      if c.Target() !in runtimes {
        return Err(RuntimeNotFound);
      }
      var runtime := runtimes[c.Target()];
      if runtime.executionVersion != c.executionVersion
        || runtime.workUnitVersion != c.workUnitVersion
        || runtime.lease.None?
        || runtime.lease.value.workerId != c.workerId
        || runtime.lease.value.claimToken != c.claimToken
        || runtime.lease.value.expiresAt <= now
        || (runtime.supersededBy.Some? && runtime.supersededBy.value != "")
      {
        return Err(StaleClaim);
      }
      r := Ok(runtime);
    }

    method SendHeartbeat(c: Claim, leaseMs: int, now: int) returns (r: Result<Lease, StoreError>)
      requires Valid()
      modifies this, runtimes.Values
      ensures runtimes == old(runtimes)
      ensures (Model(), r) == Spec.SendHeartbeat(old(Model()), c, leaseMs, now)
      ensures Valid()
    {
      hide Spec.WellFormed, Spec.Beaten, Spec.BeatLatency, Records;
      var fenced := Fence(c, now);
      if fenced.Err? {
        return Err(fenced.error);
      }
      var latency := fenced.value.Beat(leaseMs, now);
      OneRecordChanged(c.Target());
      heartbeatLatencyMs := heartbeatLatencyMs + latency;
      r := Ok(fenced.value.lease.value);
    }

    method Transition(c: Claim, to: Status, now: int) returns (r: Result<Runtime, StoreError>)
      requires Valid() && to in {Running, Waiting}
      modifies this, runtimes.Values
      ensures runtimes == old(runtimes)
      ensures (Model(), r) == Spec.Transition(old(Model()), c, to, now)
      ensures Valid()
    {
      hide Spec.WellFormed, Records;
      var fenced := Fence(c, now);
      if fenced.Err? {
        return Err(fenced.error);
      }
      if (to == Running && fenced.value.status !in {Leased, Waiting, Running})
        || (to == Waiting && fenced.value.status != Running)
      {
        return Err(InvalidTransition);
      }
      fenced.value.MoveTo(to, now);
      OneRecordChanged(c.Target());
      r := Ok(fenced.value.Value());
    }

    method Publish(c: Claim, payload: string, wellFormed: bool, bytes: nat, quotas: Quotas, now: int)
      returns (r: Result<Output, StoreError>)
      requires Valid()
      modifies this, runtimes.Values
      ensures runtimes == old(runtimes)
      ensures (Model(), r) == Spec.Publish(old(Model()), c, payload, wellFormed, bytes, quotas, now)
      ensures Valid()
    {
      hide Spec.WellFormed, Records;
      var fenced := Fence(c, now);
      if fenced.Err? {
        return Err(fenced.error);
      }
      if !wellFormed {
        return Err(MalformedOutput);
      }
      if bytes > Min(quotas.outputBytes, Spec.AGENT_OUTPUT_BYTES) {
        return Err(OutputQuotaExceeded);
      }
      var runtime, key := fenced.value, c.Target();
      if runtime.status != Running && runtime.status != Waiting {
        return Err(InvalidTransition);
      }
      var output := Spec.NewOutput(runtime.Value(), payload, now);
      runtime.Complete(now);
      OneRecordChanged(key);
      ghost var records := Records();
      runtimeOutputs := runtimeOutputs[key := (if key in runtimeOutputs then runtimeOutputs[key] else []) + [output]];
      outputBytes := outputBytes + bytes;
      assert Records() == records;
      r := Ok(output);
    }

    /** Appends a diagnostic, gives up the lease and counts the outcome: shared by failing and timing out. */
    method Settle(key: Key, status: Status, code: FailureCode, message: string, now: int)
      requires Valid() && key in runtimes
      modifies this`retryCount, this`failureCount, runtimes[key]
      ensures Model() == Spec.Settle(old(Model()), key, status, code, message, now)
      ensures Valid()
    {
      hide Spec.WellFormed, Records;
      RecordAt(key);
      runtimes[key].Diagnose(status, code, message, now);
      OneRecordChanged(key);
      CountOutcome(status);
    }

    method CountOutcome(status: Status)
      modifies this`retryCount, this`failureCount
      ensures Model() == Spec.Count(old(Model()), status)
    {
      hide Records;
      ghost var records := Records();
      if status == Ready {
        retryCount := retryCount + 1;
      } else {
        failureCount := failureCount + 1;
      }
      assert Records() == records;
    }

    method Fail(c: Claim, code: FailureCode, message: string, quotas: Quotas, now: int)
      returns (r: Result<Runtime, StoreError>)
      requires Valid()
      modifies this, runtimes.Values
      ensures runtimes == old(runtimes)
      ensures (Model(), r) == Spec.Fail(old(Model()), c, code, message, quotas, now)
      ensures Valid()
    {
      hide Spec.WellFormed, Records;
      var fenced := Fence(c, now);
      if fenced.Err? {
        return Err(fenced.error);
      }
      var runtime := fenced.value;
      var retryLimit := Min(quotas.retries, runtime.context.limits.retries);
      var retry := code.Retryable() && runtime.attempt <= retryLimit;
      var status := if retry then Ready else if code == TransientRuntimeFailure then Unhealthy else Failed;
      assert status == Spec.FailStatus(runtime.Value(), code, quotas.retries);
      Settle(c.Target(), status, code, message, now);
      RecordAt(c.Target());
      r := Ok(runtime.Value());
    }

    method Timeout(key: Key, now: int)
      requires Valid() && key in runtimes
      modifies this`retryCount, this`failureCount, runtimes[key]
      ensures Model() == Spec.Settle(old(Model()), key, Failed, RuntimeTimeout, Spec.TIMEOUT_MESSAGE, now)
      ensures Valid()
    {
      Settle(key, Failed, RuntimeTimeout, Spec.TIMEOUT_MESSAGE, now);
    }

    method CountLeased(tenantId: string, now: int) returns (leased: nat)
      requires Valid()
      ensures leased == |Spec.UnexpiredLeases(Model(), tenantId, now)|
    {
      hide Spec.WellFormed, Records, CountVisited, Spec.UnexpiredLeases;
      ghost var s := Model();
      ghost var chosen := Spec.UnexpiredLeases(s, tenantId, now);
      UnexpiredAreEntries(s, tenantId, now);
      CountAll(s, chosen);
      leased := 0;
      for i := 0 to |order|
        invariant leased == CountVisited(order, chosen, i)
      {
        EntryAt(i);
        CountNext(s, chosen, i);
        UnexpiredAt(s, tenantId, now, order[i]);
        var runtime := runtimes[order[i]];
        if runtime.tenantId == tenantId && runtime.lease.Some? && runtime.lease.value.expiresAt > now {
          leased := leased + 1;
        }
      }
    }

    /** The candidate that sorting by creation time and id puts first. */
    method FirstReady(tenantId: string) returns (next: Option<Key>)
      requires Valid()
      ensures next == Spec.NextReady(Model(), tenantId, |order|)
    {
      hide Spec.WellFormed, Spec.Before, Records;
      next := None;
      for i := 0 to |order|
        invariant next == Spec.NextReady(Model(), tenantId, i)
      {
        EntryAt(i);
        if next.Some? {
          RecordAt(next.value);
        }
        var runtime := runtimes[order[i]];
        if runtime.tenantId == tenantId && runtime.status == Ready && !runtime.Value().Superseded() {
          if next.None? || !Spec.Before(runtimes[next.value].Value(), runtime.Value()) {
            next := Some(order[i]);
          }
        }
      }
    }

    method LeaseNext(tenantId: string, workerId: string, leaseMs: int, quotas: Quotas, token: nat, now: int)
      returns (r: Result<Option<Lease>, StoreError>)
      requires Valid()
      modifies this, runtimes.Values
      ensures runtimes == old(runtimes)
      ensures (Model(), r) == Spec.LeaseNext(old(Model()), tenantId, workerId, leaseMs, quotas, token, now)
      ensures Valid()
    {
      hide Spec.WellFormed, Spec.NextReady, Records;
      var leased := CountLeased(tenantId, now);
      if leased >= quotas.leasedWorkUnits || leased >= quotas.concurrentAgents {
        return Err(LeaseQuotaExceeded);
      }
      var next := FirstReady(tenantId);
      if next.None? {
        return Ok(None);
      }
      RecordAt(next.value);
      var runtime := runtimes[next.value];
      if now - runtime.createdAt >= Min(quotas.runtimeDurationMs, runtime.context.limits.runtimeDurationMs) {
        Timeout(next.value, now);
        return Ok(None);
      }
      runtime.Grant(workerId, token, leaseMs, now);
      OneRecordChanged(next.value);
      r := Ok(runtime.lease);
    }

    method Withdraw(key: Key)
      requires Valid() && key in runtimes && !runtimes[key].status.Terminal()
      modifies this`runtimeOutputs
      ensures Model() == Withdrawn(old(Model()), key)
      ensures Valid()
    {
      hide Spec.WellFormed;
      RecordAt(key);
      WithdrawOne(Model(), key);
      if key in runtimeOutputs {
        var orphaned := Spec.OrphanedIfPublished(runtimeOutputs[key]);
        if exists i :: 0 <= i < |orphaned| && orphaned[i].orphaned {
          runtimeOutputs := runtimeOutputs[key := orphaned];
        }
      }
    }

    /** One round of the recovery loop. */
    method RecoverEntry(key: Key, quotas: Option<Quotas>, now: int) returns (acted: bool)
      requires Valid() && key in runtimes
      modifies this`runtimeOutputs, this`retryCount, this`failureCount, runtimes[key]
      ensures Model() == Spec.RecoverOn(old(Model()), {key}, quotas, now)
      ensures acted <==> Spec.Recovered(old(Model()).runtimes[key], quotas, now) != old(Model()).runtimes[key]
      ensures Valid()
    {
      hide Spec.WellFormed, Spec.WithdrawOutputs, Spec.RecoverOn, Spec.Outcome, Records;
      RecordAt(key);
      VisitOne(Model(), key, quotas, now);
      var runtime := runtimes[key];
      if runtime.status.Terminal() {
        WithdrawOne(Model(), key);
        return false;
      }
      Withdraw(key);
      acted := ReleaseIfOver(key, quotas, now);
    }

    /** Times the runtime out, or takes back an expired lease, or does nothing. */
    method ReleaseIfOver(key: Key, quotas: Option<Quotas>, now: int) returns (acted: bool)
      requires Valid() && key in runtimes && !runtimes[key].status.Terminal()
      modifies this`retryCount, this`failureCount, runtimes[key]
      ensures var r := old(Model()).runtimes[key];
        var r' := Spec.Recovered(r, quotas, now);
        && (acted <==> r' != r)
        && Model() == if acted then Spec.Outcome(old(Model()), key, r', r'.status) else old(Model())
      ensures Valid()
    {
      hide Spec.WellFormed, Spec.Count, Spec.Put, Records;
      RecordAt(key);
      var runtime := runtimes[key];
      var ownMs := runtime.context.limits.runtimeDurationMs;
      if now - runtime.createdAt >= Min(if quotas.Some? then quotas.value.runtimeDurationMs else ownMs, ownMs) {
        Timeout(key, now);
        return true;
      }
      if runtime.lease.Some? && runtime.lease.value.expiresAt <= now {
        var retries := if quotas.Some? then quotas.value.retries else runtime.context.limits.retries;
        ReleaseExpired(key, runtime.attempt <= Min(retries, runtime.context.limits.retries), now);
        return true;
      }
      return false;
    }

    method ReleaseExpired(key: Key, retry: bool, now: int)
      requires Valid() && key in runtimes
      modifies this`retryCount, this`failureCount, runtimes[key]
      ensures var status, r := if retry then Ready else Failed, old(Model()).runtimes[key];
        var released := Spec.Diagnosed(r, status, LeaseExpired, Spec.EXPIRED_MESSAGE, now);
        var r' := released.(recoveryCount := r.recoveryCount + 1);
        Model() == Spec.Outcome(old(Model()), key, r', status)
      ensures Valid()
    {
      hide Spec.WellFormed, Spec.Count, Records;
      RecordAt(key);
      var status := if retry then Ready else Failed;
      runtimes[key].Expire(status, now);
      OneRecordChanged(key);
      CountOutcome(status);
    }

    method Recover(quotas: Option<Quotas>, now: int) returns (recovered: nat)
      requires Valid()
      modifies this, runtimes.Values
      ensures runtimes == old(runtimes)
      ensures (Model(), recovered) == Spec.Recover(old(Model()), quotas, now)
      ensures Valid()
    {
      hide Spec.WellFormed, Spec.RecoverOn, Records, Spec.Recoverable, Spec.Recovered, Visited;
      ghost var s := Model();
      VisitedAll(s, quotas, now);
      recovered := 0;
      for i := 0 to |order|
        invariant runtimes == old(runtimes) && order == s.order && Valid()
        invariant Model() == Spec.RecoverOn(s, Visited(order, i), quotas, now)
        invariant recovered == |Spec.Recoverable(s, Visited(order, i), quotas, now)|
      {
        var key := order[i];
        VisitsNew(s, i);
        VisitNext(s, Visited(order, i), key, quotas, now);
        RecoverableNext(s, Visited(order, i), key, quotas, now);
        UnvisitedIsUnchanged(s, Visited(order, i), key, quotas, now);
        var acted := RecoverEntry(key, quotas, now);
        if acted {
          recovered := recovered + 1;
        }
      }
      ghost var records := Records();
      recoveryTotal := recoveryTotal + recovered;
      assert Records() == records;
    }

    predicate Retired(key: Key, tenantId: string)
      requires key in runtimes
      reads this`runtimes, runtimes.Values
    {
      runtimes[key].tenantId == tenantId && runtimes[key].status.Terminal()
    }

    /** Where entry `n` belongs among earlier entries that are sorted newest first: behind those as new as it. */
    method Position(places: seq<nat>, n: nat) returns (at: nat)
      requires Valid() && n < |order| && forall i :: 0 <= i < |places| ==> places[i] < n
      ensures at <= |places|
      ensures forall i: nat :: i < |order| ==> order[i] in Model().runtimes
      ensures forall i :: 0 <= i < at ==> Spec.NewerAt(Model(), places[i], n)
      ensures at < |places| ==> !Spec.NewerAt(Model(), places[at], n)
    {
      hide Spec.WellFormed, Records;
      forall i: nat | i < |order| ensures order[i] in runtimes && Records()[order[i]] == runtimes[order[i]].Value() {
        EntryAt(i);
      }
      at := 0;
      while at < |places| && runtimes[order[places[at]]].createdAt >= runtimes[order[n]].createdAt
        invariant at <= |places|
        invariant forall i :: 0 <= i < at ==> Spec.NewerAt(Model(), places[i], n)
      {
        at := at + 1;
      }
    }

    /** The terminal runtimes of the tenant, newest first; entries of equal age keep the order of the map. */
    method SortedRetired(tenantId: string) returns (places: seq<nat>)
      requires Valid()
      ensures IsSorted(Model(), tenantId, |order|, places)
    {
      hide Spec.WellFormed, Records, Spec.NewerAt;
      places := [];
      for n := 0 to |order|
        invariant IsSorted(Model(), tenantId, n, places)
      {
        EntryAt(n);
        if Retired(order[n], tenantId) {
          var at := Position(places, n);
          InsertKeepsSorted(Model(), tenantId, n, places, at);
          places := places[..at] + [n] + places[at..];
        }
      }
    }

    method DeleteAll(keys: seq<Key>) returns (removed: nat)
      modifies this`runtimes, this`runtimeOutputs, this`order
      ensures runtimes == old(runtimes) - Members(keys)
      ensures runtimeOutputs == old(runtimeOutputs) - Members(keys)
      ensures order == Spec.Without(old(order), Members(keys))
      ensures removed == |keys|
      ensures Records() == old(Records()) - Members(keys)
    {
      hide Spec.Without;
      removed := 0;
      WithoutNone(order);
      assert Members(keys[..0]) == {};
      for i := 0 to |keys|
        invariant runtimes == old(runtimes) - Members(keys[..i])
        invariant runtimeOutputs == old(runtimeOutputs) - Members(keys[..i])
        invariant order == Spec.Without(old(order), Members(keys[..i]))
        invariant removed == i
      {
        MembersNext(keys, i);
        hide Members;
        WithoutTwice(old(order), Members(keys[..i]), {keys[i]});
        runtimes, runtimeOutputs := runtimes - {keys[i]}, runtimeOutputs - {keys[i]};
        order := Spec.Without(order, {keys[i]});
        removed := removed + 1;
      }
      assert keys[..|keys|] == keys;
    }

    method Collect(tenantId: string, retention: int) returns (removed: nat)
      requires Valid()
      modifies this
      ensures runtimes.Values <= old(runtimes.Values)
      ensures (Model(), removed) == Spec.Collect(old(Model()), tenantId, retention)
      ensures Valid()
    {
      hide Spec.WellFormed, Spec.CollectedKeys, Spec.Without, Records;
      ghost var s := Model();
      var places := SortedRetired(tenantId);
      var keep := Min(Max(1, retention), |places|);
      TailIsCollected(s, tenantId, retention, places, keep);
      removed := DeleteAll(KeysAt(order, places)[keep..]);
    }
  }
}
