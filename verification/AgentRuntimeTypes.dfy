/**
 The records of the agent runtime store. Times are milliseconds; a runtime id
 stands for the 96-bit number that `stableId` prints as 24 hexadecimal digits,
 so that comparing two ids as numbers is comparing their printed forms.
 */
module AgentRuntimeTypes {
  import opened Wrappers

  datatype Key = Key(tenantId: string, runtimeId: nat)

  datatype Status = Ready | Leased | Running | Waiting | Completed | Failed | Cancelled | Unhealthy
  {
    predicate Terminal() { this in {Completed, Failed, Cancelled} }

    /** The statuses in which some worker holds the runtime. */
    predicate Held() { this in {Leased, Running, Waiting} }
  }

  datatype FailureCode =
    | TransientRuntimeFailure
    | RuntimeTimeout
    | LeaseExpired
    | InvalidCapability
    | OutputValidationFailed
    | AuthorizationFailed
  {
    predicate Retryable() { this in {TransientRuntimeFailure, RuntimeTimeout, LeaseExpired} }
  }

  datatype StoreError =
    | RuntimeNotFound
    | InvalidExecutionContext
    | ActiveQuotaExceeded
    | IdentityConflict
    | LeaseQuotaExceeded
    | StaleClaim
    | InvalidTransition
    | MalformedOutput
    | OutputQuotaExceeded

  datatype Limits = Limits(runtimeDurationMs: int, retries: int)

  /** `artifacts` stands for the rest of the canonicalised execution context. */
  datatype Context = Context(
    tenantId: string, executionVersion: string, workUnitVersion: string,
    limits: Limits, artifacts: string)

  datatype Quotas = Quotas(
    activeRuntimes: int, leasedWorkUnits: int, concurrentAgents: int,
    runtimeDurationMs: int, retries: int, outputBytes: int)

  datatype Lease = Lease(
    workerId: string, claimToken: nat, attempt: nat,
    leasedAt: int, heartbeatAt: int, expiresAt: int)

  datatype Heartbeat = Heartbeat(workerId: string, claimToken: nat, recordedAt: int, latencyMs: int)

  datatype Diagnostic = Diagnostic(code: FailureCode, message: string, retryable: bool, createdAt: int)

  datatype Output = Output(
    outputVersion: nat, executionVersion: string, workUnitVersion: string,
    payload: string, published: bool, orphaned: bool, createdAt: int)

  datatype Runtime = Runtime(
    tenantId: string, runtimeId: nat, agentId: string,
    executionVersion: string, workUnitVersion: string, context: Context, createdAt: int,
    workerId: Option<string>, status: Status, attempt: nat, lease: Option<Lease>,
    heartbeat: Option<Heartbeat>, diagnostics: seq<Diagnostic>, outputVersion: nat,
    supersededBy: Option<string>, recoveryCount: nat,
    updatedAt: int, startedAt: Option<int>, completedAt: Option<int>)
  {
    /** A JavaScript string counts as set only when it is not empty. */
    predicate Superseded() { supersededBy.Some? && supersededBy.value != "" }

    predicate HoldsUnexpiredLease(now: int) { lease.Some? && lease.value.expiresAt > now }
  }

  /** What a worker presents to act on the runtime it was leased. */
  datatype Claim = Claim(
    tenantId: string, runtimeId: nat, executionVersion: string,
    workUnitVersion: string, workerId: string, claimToken: nat)
  {
    function Target(): Key { Key(tenantId, runtimeId) }
  }

  /**
   The store between two calls. `order` is the insertion order of the
   `runtimes` map, which is the order in which its entries are visited.
   */
  datatype State = State(
    runtimes: map<Key, Runtime>, order: seq<Key>, outputs: map<Key, seq<Output>>,
    retryCount: int, failureCount: int, heartbeatLatencyMs: int, outputBytes: int, recoveryTotal: int)
  {
    function OutputsOf(k: Key): seq<Output> { if k in outputs then outputs[k] else [] }
  }
}
