/** What each store operation does, on values. The class in AgentRuntimeStore is proved against it. */
module AgentRuntimeSpec {
  import opened Wrappers
  import opened AgentRuntimeTypes

  const AGENT_OUTPUT_BYTES := 1_048_576

  const TIMEOUT_MESSAGE := "Runtime duration quota exceeded."
  const EXPIRED_MESSAGE := "Expired runtime lease recovered."

  const EMPTY := State(map[], [], map[], 0, 0, 0, 0, 0)

  // ---------- One runtime ----------

  function NewRuntime(agentId: string, context: Context, id: nat, now: int): Runtime {
    Runtime(context.tenantId, id, agentId, context.executionVersion, context.workUnitVersion, context, now,
            None, Ready, 0, None, None, [], 0, None, 0, now, None, None)
  }

  function Granted(r: Runtime, workerId: string, token: nat, leaseMs: int, now: int): Runtime {
    r.(attempt := r.attempt + 1, workerId := Some(workerId), status := Leased,
       lease := Some(Lease(workerId, token, r.attempt + 1, now, now, now + leaseMs)),
       updatedAt := now, startedAt := if r.startedAt.Some? then r.startedAt else Some(now))
  }

  function BeatLatency(r: Runtime, now: int): int
    requires r.lease.Some?
  {
    Max(0, now - r.lease.value.heartbeatAt)
  }

  function Beaten(r: Runtime, leaseMs: int, now: int): Runtime
    requires r.lease.Some?
  {
    var lease := r.lease.value.(heartbeatAt := now, expiresAt := now + leaseMs);
    r.(lease := Some(lease), updatedAt := now,
       heartbeat := Some(Heartbeat(lease.workerId, lease.claimToken, now, BeatLatency(r, now))))
  }

  function Released(r: Runtime, status: Status, now: int): Runtime {
    r.(status := status, lease := None, workerId := None, updatedAt := now,
       completedAt := if status == Ready then None else Some(now))
  }

  function Diagnosed(r: Runtime, status: Status, code: FailureCode, message: string, now: int): Runtime {
    Released(r, status, now).(diagnostics := r.diagnostics + [Diagnostic(code, message, status == Ready, now)])
  }

  function TimedOut(r: Runtime, now: int): Runtime {
    Diagnosed(r, Failed, RuntimeTimeout, TIMEOUT_MESSAGE, now)
  }

  predicate MayRetry(r: Runtime, retries: int) { r.attempt <= Min(retries, r.context.limits.retries) }

  function FailStatus(r: Runtime, code: FailureCode, retries: int): Status {
    if code.Retryable() && MayRetry(r, retries) then Ready
    else if code == TransientRuntimeFailure then Unhealthy
    else Failed
  }

  function ExpiredLease(r: Runtime, retries: int, now: int): Runtime {
    Diagnosed(r, if MayRetry(r, retries) then Ready else Failed,
              LeaseExpired, EXPIRED_MESSAGE, now).(recoveryCount := r.recoveryCount + 1)
  }

  predicate PastDuration(r: Runtime, durationMs: int, now: int) {
    now - r.createdAt >= Min(durationMs, r.context.limits.runtimeDurationMs)
  }

  /** The duration limit that a recovery applies. */
  function DurationLimit(r: Runtime, quotas: Option<Quotas>): int {
    if quotas.Some? then quotas.value.runtimeDurationMs else r.context.limits.runtimeDurationMs
  }

  /** What `recover` makes of one runtime; without quotas the runtime's own limits apply. */
  function Recovered(r: Runtime, quotas: Option<Quotas>, now: int): Runtime {
    var retries := if quotas.Some? then quotas.value.retries else r.context.limits.retries;
    if r.status.Terminal() then r
    else if PastDuration(r, DurationLimit(r, quotas), now) then TimedOut(r, now)
    else if r.lease.Some? && r.lease.value.expiresAt <= now then ExpiredLease(r, retries, now)
    else r
  }

  function NewOutput(r: Runtime, payload: string, now: int): Output {
    Output(r.outputVersion + 1, r.executionVersion, r.workUnitVersion, payload, true, false, now)
  }

  function Published(r: Runtime, now: int): Runtime {
    r.(outputVersion := r.outputVersion + 1, status := Completed, lease := None, workerId := None,
       updatedAt := now, completedAt := Some(now))
  }

  function Orphaned(outs: seq<Output>): seq<Output> {
    seq(|outs|, i requires 0 <= i < |outs| => outs[i].(published := false, orphaned := true))
  }

  /** The rewrite `recover` applies to the outputs of a runtime that is not terminal. */
  function OrphanedIfPublished(outs: seq<Output>): seq<Output> {
    seq(|outs|, i requires 0 <= i < |outs| =>
      if outs[i].published then outs[i].(published := false, orphaned := true) else outs[i])
  }

  // ---------- Fencing and selection ----------

  predicate Holds(r: Runtime, c: Claim, now: int) {
    && r.executionVersion == c.executionVersion
    && r.workUnitVersion == c.workUnitVersion
    && r.lease.Some?
    && r.lease.value.workerId == c.workerId
    && r.lease.value.claimToken == c.claimToken
    && r.lease.value.expiresAt > now
    && !r.Superseded()
  }

  /** The claim passes the fence at time `now`. */
  predicate Fenced(s: State, c: Claim, now: int) {
    c.Target() in s.runtimes && Holds(s.runtimes[c.Target()], c, now)
  }

  function FenceError(s: State, c: Claim): StoreError {
    if c.Target() in s.runtimes then StaleClaim else RuntimeNotFound
  }

  ghost predicate Distinct<T>(order: seq<T>) {
    forall i, j :: 0 <= i < j < |order| ==> order[i] != order[j]
  }

  ghost predicate WellFormed(s: State) {
    && Distinct(s.order)
    && (forall k :: k in s.order <==> k in s.runtimes)
    && (forall k :: k in s.runtimes ==> s.runtimes[k].tenantId == k.tenantId && s.runtimes[k].runtimeId == k.runtimeId)
    && s.outputs.Keys <= s.runtimes.Keys
  }

  predicate IsCandidate(s: State, tenantId: string, k: Key) {
    && k in s.runtimes
    && s.runtimes[k].tenantId == tenantId
    && s.runtimes[k].status == Ready
    && !s.runtimes[k].Superseded()
  }

  /** The order `leaseNext` sorts by: creation time, then id. */
  predicate Before(a: Runtime, b: Runtime) {
    a.createdAt < b.createdAt || (a.createdAt == b.createdAt && a.runtimeId <= b.runtimeId)
  }

  /** The first candidate, in sorting order, among the first `n` entries of the map. */
  function NextReady(s: State, tenantId: string, n: nat): (next: Option<Key>)
    requires WellFormed(s) && n <= |s.order|
    ensures next.None? ==> forall i :: 0 <= i < n ==> !IsCandidate(s, tenantId, s.order[i])
    ensures next.Some? ==> IsCandidate(s, tenantId, next.value)
    ensures next.Some? ==> forall i :: 0 <= i < n && IsCandidate(s, tenantId, s.order[i]) ==>
      Before(s.runtimes[next.value], s.runtimes[s.order[i]])
  {
    if n == 0 then None
    else
      var best := NextReady(s, tenantId, n - 1);
      var k := s.order[n - 1];
      if IsCandidate(s, tenantId, k) && (best.None? || !Before(s.runtimes[best.value], s.runtimes[k])) then Some(k)
      else best
  }

  /** The runtimes of a tenant whose lease has not expired at `now`. */
  ghost function UnexpiredLeases(s: State, tenantId: string, now: int): set<Key> {
    set k | k in s.runtimes && s.runtimes[k].tenantId == tenantId && s.runtimes[k].HoldsUnexpiredLease(now)
  }

  /** The runtimes of a tenant that are not terminal. */
  ghost function ActiveRuntimes(s: State, tenantId: string): set<Key> {
    set k | k in s.runtimes && s.runtimes[k].tenantId == tenantId && !s.runtimes[k].status.Terminal()
  }

  // ---------- Operations ----------

  function Put(s: State, k: Key, r: Runtime): State
  {
    s.(runtimes := s.runtimes[k := r])
  }

  /** `identify` stands for `stableId` over tenant, execution version, work unit version and agent. */
  ghost function Create(s: State, identify: (Context, string) -> nat,
                        agentId: string, context: Context, admitted: bool, quotas: Quotas, now: int)
    : (out: (State, Result<Runtime, StoreError>))
    requires WellFormed(s)
    ensures WellFormed(out.0)
  {
    var k := Key(context.tenantId, identify(context, agentId));
    if !admitted then (s, Err(InvalidExecutionContext))
    else if |ActiveRuntimes(s, context.tenantId)| >= quotas.activeRuntimes then (s, Err(ActiveQuotaExceeded))
    else if k in s.runtimes then
      (s, if s.runtimes[k].context != context then Err(IdentityConflict) else Ok(s.runtimes[k]))
    else
      var r := NewRuntime(agentId, context, k.runtimeId, now);
      (s.(runtimes := s.runtimes[k := r], order := s.order + [k]), Ok(r))
  }

  /** A diagnostic is counted as a retry when it puts the runtime back to ready, as a failure otherwise. */
  function Count(s: State, status: Status): State {
    if status == Ready then s.(retryCount := s.retryCount + 1) else s.(failureCount := s.failureCount + 1)
  }

  /** Entry `k` becomes `r`, which a diagnostic has just released into `status`. */
  ghost function Outcome(s: State, k: Key, r: Runtime, status: Status): (t: State)
    requires WellFormed(s) && k in s.runtimes && r.tenantId == k.tenantId && r.runtimeId == k.runtimeId
    ensures WellFormed(t)
  {
    Count(Put(s, k, r), status)
  }

  /** Appends a diagnostic to entry `k`, gives up its lease and counts the outcome. */
  ghost function Settle(s: State, k: Key, status: Status, code: FailureCode, message: string, now: int): (t: State)
    requires WellFormed(s) && k in s.runtimes
    ensures WellFormed(t)
  {
    Outcome(s, k, Diagnosed(s.runtimes[k], status, code, message, now), status)
  }

  predicate QuotaRefuses(leased: nat, quotas: Quotas) {
    leased >= quotas.leasedWorkUnits || leased >= quotas.concurrentAgents
  }

  ghost function LeaseNext(s: State, tenantId: string, workerId: string, leaseMs: int,
                           quotas: Quotas, token: nat, now: int)
    : (out: (State, Result<Option<Lease>, StoreError>))
    requires WellFormed(s)
    ensures WellFormed(out.0)
  {
    var next := NextReady(s, tenantId, |s.order|);
    if QuotaRefuses(|UnexpiredLeases(s, tenantId, now)|, quotas) then (s, Err(LeaseQuotaExceeded))
    else if next.None? then (s, Ok(None))
    else
      var r := s.runtimes[next.value];
      if PastDuration(r, quotas.runtimeDurationMs, now) then
        (Settle(s, next.value, Failed, RuntimeTimeout, TIMEOUT_MESSAGE, now), Ok(None))
      else
        var granted := Granted(r, workerId, token, leaseMs, now);
        (Put(s, next.value, granted), Ok(granted.lease))
  }

  ghost function SendHeartbeat(s: State, c: Claim, leaseMs: int, now: int): (out: (State, Result<Lease, StoreError>))
    requires WellFormed(s)
    ensures WellFormed(out.0)
  {
    if !Fenced(s, c, now) then (s, Err(FenceError(s, c)))
    else
      var r := s.runtimes[c.Target()];
      var beaten := Beaten(r, leaseMs, now);
      (Put(s, c.Target(), beaten).(heartbeatLatencyMs := s.heartbeatLatencyMs + BeatLatency(r, now)),
       Ok(beaten.lease.value))
  }

  predicate TransitionAllowed(from: Status, to: Status) {
    (to == Running && from.Held()) || (to == Waiting && from == Running)
  }

  ghost function Transition(s: State, c: Claim, to: Status, now: int): (out: (State, Result<Runtime, StoreError>))
    requires to in {Running, Waiting}
    requires WellFormed(s)
    ensures WellFormed(out.0)
  {
    if !Fenced(s, c, now) then (s, Err(FenceError(s, c)))
    else
      var r := s.runtimes[c.Target()];
      if !TransitionAllowed(r.status, to) then (s, Err(InvalidTransition))
      else
        var moved := r.(status := to, updatedAt := now);
        (Put(s, c.Target(), moved), Ok(moved))
  }

  /** `bytes` is the encoded size of the payload and `wellFormed` says that it has the output's shape. */
  ghost function Publish(s: State, c: Claim, payload: string, wellFormed: bool, bytes: nat, quotas: Quotas, now: int)
    : (out: (State, Result<Output, StoreError>))
    requires WellFormed(s)
    ensures WellFormed(out.0)
  {
    if !Fenced(s, c, now) then (s, Err(FenceError(s, c)))
    else
      var k := c.Target();
      var r := s.runtimes[k];
      if !wellFormed then (s, Err(MalformedOutput))
      else if bytes > Min(quotas.outputBytes, AGENT_OUTPUT_BYTES) then (s, Err(OutputQuotaExceeded))
      else if r.status != Running && r.status != Waiting then (s, Err(InvalidTransition))
      else
        var output := NewOutput(r, payload, now);
        (Put(s, k, Published(r, now)).(outputs := s.outputs[k := s.OutputsOf(k) + [output]],
                                       outputBytes := s.outputBytes + bytes), Ok(output))
  }

  ghost function Fail(s: State, c: Claim, code: FailureCode, message: string, quotas: Quotas, now: int)
    : (out: (State, Result<Runtime, StoreError>))
    requires WellFormed(s)
    ensures WellFormed(out.0)
  {
    if !Fenced(s, c, now) then (s, Err(FenceError(s, c)))
    else
      var r := s.runtimes[c.Target()];
      var status := FailStatus(r, code, quotas.retries);
      (Settle(s, c.Target(), status, code, message, now), Ok(Diagnosed(r, status, code, message, now)))
  }

  ghost function Cancel(s: State, k: Key, now: int): (out: (State, Result<Runtime, StoreError>))
    requires WellFormed(s)
    ensures WellFormed(out.0)
  {
    if k !in s.runtimes then (s, Err(RuntimeNotFound))
    else if s.runtimes[k].status.Terminal() then (s, Ok(s.runtimes[k]))
    else
      var r := Released(s.runtimes[k], Cancelled, now);
      (Put(s, k, r), Ok(r))
  }

  ghost function Supersede(s: State, k: Key, successor: string, now: int): (out: (State, Result<Runtime, StoreError>))
    requires WellFormed(s)
    ensures WellFormed(out.0)
  {
    if k !in s.runtimes then (s, Err(RuntimeNotFound))
    else
      var r := Released(s.runtimes[k], Cancelled, now).(supersededBy := Some(successor));
      (Put(s, k, r).(outputs := s.outputs[k := Orphaned(s.OutputsOf(k))]), Ok(r))
  }

  /** The entries of `done` that `recover` acts on: those it times out or whose lease it takes back. */
  ghost function Recoverable(s: State, done: set<Key>, quotas: Option<Quotas>, now: int): set<Key> {
    set k | k in done && k in s.runtimes && Recovered(s.runtimes[k], quotas, now) != s.runtimes[k]
  }

  /** The recovered entries of `done` that go back to ready (`retried`), or the others. */
  ghost function Outcomes(s: State, done: set<Key>, quotas: Option<Quotas>, now: int, retried: bool): set<Key> {
    set k | k in Recoverable(s, done, quotas, now) && (Recovered(s.runtimes[k], quotas, now).status == Ready) == retried
  }

  /** Outputs of the entries of `done` that are not terminal are withdrawn. */
  ghost function WithdrawOutputs(s: State, done: set<Key>): (outputs: map<Key, seq<Output>>)
    requires WellFormed(s)
    ensures outputs.Keys == s.outputs.Keys
  {
    map k | k in s.outputs ::
      if k in done && !s.runtimes[k].status.Terminal() then OrphanedIfPublished(s.outputs[k]) else s.outputs[k]
  }

  /** `recover` once it has visited the entries of `done`; the order of the visits does not matter. */
  ghost function RecoverOn(s: State, done: set<Key>, quotas: Option<Quotas>, now: int): (t: State)
    requires WellFormed(s)
    ensures WellFormed(t) && t.order == s.order && t.recoveryTotal == s.recoveryTotal
  {
    s.(runtimes := map k | k in s.runtimes ::
         if k in done then Recovered(s.runtimes[k], quotas, now) else s.runtimes[k],
       outputs := WithdrawOutputs(s, done),
       retryCount := s.retryCount + |Outcomes(s, done, quotas, now, true)|,
       failureCount := s.failureCount + |Outcomes(s, done, quotas, now, false)|)
  }

  ghost function Recover(s: State, quotas: Option<Quotas>, now: int): (out: (State, nat))
    requires WellFormed(s)
    ensures WellFormed(out.0)
  {
    var n := |Recoverable(s, s.runtimes.Keys, quotas, now)|;
    (RecoverOn(s, s.runtimes.Keys, quotas, now).(recoveryTotal := s.recoveryTotal + n), n)
  }

  // ---------- Collection ----------

  ghost predicate IsRetired(s: State, tenantId: string, k: Key) {
    k in s.runtimes && s.runtimes[k].tenantId == tenantId && s.runtimes[k].status.Terminal()
  }

  /** Entry `i` comes before entry `j` when newest come first and the sort is stable. */
  predicate NewerAt(s: State, i: nat, j: nat)
    requires i < |s.order| && j < |s.order| && s.order[i] in s.runtimes && s.order[j] in s.runtimes
  {
    var a, b := s.runtimes[s.order[i]], s.runtimes[s.order[j]];
    a.createdAt > b.createdAt || (a.createdAt == b.createdAt && i < j)
  }

  /** The terminal entries of the tenant that come before entry `j`. */
  ghost function NewerThan(s: State, tenantId: string, j: nat): set<nat>
    requires WellFormed(s) && j < |s.order|
  {
    set i: nat | i < |s.order| && IsRetired(s, tenantId, s.order[i]) && NewerAt(s, i, j)
  }

  /** A terminal entry is dropped when at least `retention` (and at least one) terminal entries are newer. */
  ghost function CollectedPlaces(s: State, tenantId: string, retention: int): set<nat>
    requires WellFormed(s)
  {
    set j: nat | j < |s.order| && IsRetired(s, tenantId, s.order[j]) && |NewerThan(s, tenantId, j)| >= Max(1, retention)
  }

  ghost function CollectedKeys(s: State, tenantId: string, retention: int): (keys: set<Key>)
    requires WellFormed(s)
    ensures forall k :: k in keys ==> IsRetired(s, tenantId, k)
  {
    set j | j in CollectedPlaces(s, tenantId, retention) :: s.order[j]
  }

  function Without(order: seq<Key>, gone: set<Key>): (kept: seq<Key>)
    ensures forall k :: k in kept <==> k in order && k !in gone
    ensures Distinct(order) ==> Distinct(kept)
  {
    if order == [] then []
    else
      var last := |order| - 1;
      var init := Without(order[..last], gone);
      if order[last] in gone then init else init + [order[last]]
  }

  ghost function Collect(s: State, tenantId: string, retention: int): (out: (State, nat))
    requires WellFormed(s)
    ensures WellFormed(out.0)
  {
    var gone := CollectedKeys(s, tenantId, retention);
    (s.(runtimes := s.runtimes - gone, outputs := s.outputs - gone, order := Without(s.order, gone)), |gone|)
  }
}
