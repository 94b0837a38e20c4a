# Verified model of the Giro runtime

Dafny models of the stateful parts of the Giro backend and of its event-stream
client, with proofs of what they promise over whole runs. `dafny verify
dfyconfig.toml` checks everything.

**Agent runtime store** (`AgentRuntime*.dfy`). A lease and fencing protocol for
work units. `AgentRuntimeSpec` says what each operation does to the store as a
value, `AgentRuntimeStore` is the store with its mutable records and loops and
refines it, and `AgentRuntimeReplay` runs any calls on it. `AgentRuntimeOutcomes` states
what each operation does without the specification's own predicates: which codes are
retried, which limits are compared and how, which runtime is leased. The other modules
prove properties of any sequence of calls: fencing, agreement of attempts, leases and
outputs with the status, a measure that bounds status changes, quotas, recovery and
retention. A call is given the clock it reads and, for a lease, the token it hands out; where a proof needs
the clock not to go back or tokens to be fresh, its lemma says so.

**Circuit breaker** (`CircuitBreaker*.dfy`). `execute` is two steps, split at its
await, so calls overlap. `CircuitBreakerSafety` proves probe accounting, the
legal edges and the cooldown; `CircuitBreakerWindow` that the pruned list is the
rolling window by definition; `CircuitBreakerReads` that reads cannot be noticed;
`CircuitBreakerCounting` that a breaker opens exactly when enough of the positions in that
window failed; `CircuitBreakerOpening` which breakers can open.

**Request latencies** (`NearestRank`, `RollingLatency`, `LatencyHistogram`). The ring buffer
shadowed by a sorted list, against quantiles defined by counting; cumulative buckets.

**Client addresses** (`Text`, `Numerals`, `Ip*`, `Trusted*`). The address
parser against the grammar and denotation of RFC 4291, printing and reading
back, ranges as intervals, and the client behind trusted proxies.

**Event stream** (`Sse*.dfy`). Splitting, parsing and delivery for any chunking,
the table of active streams, and reconnecting.

**Ranking metrics** (`DiscountedGain`, `Ranking*.dfy`). Scores of a ranking;
`RankingScores` says of each which share of positions or of distinct things it is. The discount
is any positive, strictly falling sequence, as `1 / log2(i + 2)` is.

**Shutdown, retry, deadlines, pagination** (`Shutdown*.dfy`, `Retry`, `Deadline`,
`Base64Url`, `CursorPagination`).

Some expectations one may have of the code are not met. Each is stated as a lemma with the
exact condition, and with an instance: creating an existing runtime at the active quota is
refused (`CreatingAgain`, `CreatingAgainAtQuota`), `unhealthy` is not terminal
(`UnhealthyOnlyEnds`, `UnhealthyIsNotTerminal`), a cleanup task may start after the shutdown
timed out (`StartsAfterTimeout`, `TaskAfterTimeoutHappens`), asking a disposed deadline after
its time throws an undefined reason (`ThrowsWhenOver`, `DisposedThrowsUndefined`), and a
breaker whose valid options keep fewer samples than it needs never opens
(`OpensInSomeRun`, `ShortListNeverOpens`).

Times are integers; quantile ranks, jitter factors and scores are exact.

## Model

| member | source | states |
|---|---|---|
| `AgentRuntimeOutcomes.LeaseIsRefusedAtQuota` | backend/src/services/agentRuntime/store.ts:143-155 | A lease call is refused for its quota if and only if the number of the tenant's unexpired leases has reached `leasedWorkUnits` or `concurrentAgents`, and then nothing changes |
| `AgentRuntimeOutcomes.LeaseOutcome` | backend/src/services/agentRuntime/store.ts:150-185 | Below both quotas: with nothing waiting the answer is none; else the runtime that has waited longest (ties by id) is granted on its next attempt if its age is under both duration limits, and otherwise fails with a timeout and the answer is none |
| `AgentRuntimeFullQuota.QuotaIsReached` | backend/src/services/agentRuntime/store.ts:84-185 | The quotas are reached: for every `n` a run from the empty store under lease quotas of `n` ends with `n` unexpired leases |
| `AgentRuntimeOutcomes.FailOutcome` | backend/src/services/agentRuntime/store.ts:281-306 | A current claim that fails puts the runtime back to ready if and only if the code is a transient failure, a timeout or an expired lease and the attempt is within the retry limits of both the quotas and the context; otherwise it is unhealthy for a transient failure and failed for any other code; diagnostic and counters say so |
| `AgentRuntimeOutcomes.FenceOutcome` | backend/src/services/agentRuntime/store.ts:187-198 | A claim passes the fence if and only if versions, worker and token are those of the lease, it has time left and there is no successor; a missing runtime and a stale claim are told apart |
| `AgentRuntimeOutcomes.CreateOutcome` | backend/src/services/agentRuntime/store.ts:84-136 | Creation, case by case: not admitted, active quota reached, other context under the id, the same runtime back, or a new ready one with nothing else changed |
| `AgentRuntimeOutcomes.HeartbeatOutcome` | backend/src/services/agentRuntime/store.ts:200-216 | A current claim's heartbeat renews the lease for its full length and adds the time since the last beat, never negative |
| `AgentRuntimeOutcomes.TransitionOutcome` | backend/src/services/agentRuntime/store.ts:218-231 | Running can be entered from leased, running or waiting, waiting only from running; only status and update time change |
| `AgentRuntimeOutcomes.PublishOutcome` | backend/src/services/agentRuntime/store.ts:233-279 | Exactly which outputs are accepted: well formed, at most the lesser of the quota and 1048576 bytes, from running or waiting; a published output has the next version, completes the runtime and is counted by its bytes |
| `AgentRuntimeOutcomes.CancelOutcome` | backend/src/services/agentRuntime/store.ts:308-318 | A cancellation leaves a completed, failed or cancelled runtime as it is and ends any other |
| `AgentRuntimeOutcomes.SupersedeOutcome` | backend/src/services/agentRuntime/store.ts:320-340 | A supersession cancels any runtime that exists and orphans every output of it |
| `AgentRuntimeOutcomes.RecoverOutcome` | backend/src/services/agentRuntime/store.ts:342-385 | What recovery makes of each runtime: over, it stays; at or past the lesser duration limit, it fails with a timeout; with a lease that has run out, it is retried while the attempt is within the lesser retry limit and fails otherwise; any other stays |
| `AgentRuntimeFencing.RefusedForever` | backend/src/services/agentRuntime/store.ts:187-198 | Over any run with a clock that does not go back past `t` and fresh tokens: an issued claim that is refused at `t` is refused in every later state and at every later time, whatever calls come between |
| `AgentRuntimeFencing.GrantRefusesOthers` | backend/src/services/agentRuntime/store.ts:143-198 | Mutual exclusion: once a lease is granted, every claim on that runtime issued before is refused for the rest of the run |
| `AgentRuntimeFencing.OneClaimPasses` | backend/src/services/agentRuntime/store.ts:187-198 | At one instant at most one claim on a runtime passes the fence |
| `AgentRuntimeFencing.GrantIsFenced` | backend/src/services/agentRuntime/store.ts:156-185 | A grant only goes to a ready runtime, and its own claim passes the fence exactly until the lease runs out |
| `AgentRuntimeFencing.HeartbeatExtends` | backend/src/services/agentRuntime/store.ts:200-216 | A passing heartbeat makes its claim pass exactly until the new expiry and touches no other runtime |
| `AgentRuntimeFencing.EndedClaimIsRefused` | backend/src/services/agentRuntime/store.ts:233-306 | Publishing or failing gives the claim up for good |
| `AgentRuntimeFencing.CallKeepsRefusal` | backend/src/services/agentRuntime/store.ts:84-401 | No single call revives a refused claim, unless it hands out that very token |
| `AgentRuntimeRuns.EntryAfter` | backend/src/services/agentRuntime/store.ts:84-439 | Frame of every call: each runtime is new, unchanged, or changed by the one step that call is allowed to make |
| `AgentRuntimeRuns.LeasedEntryAfter` | backend/src/services/agentRuntime/store.ts:143-185 | A lease call touches only the runtime that sorts first among the tenant's ready ones |
| `AgentRuntimeSpec.NextReady` | backend/src/services/agentRuntime/store.ts:156-160 | The runtime chosen is a ready, not superseded one of the tenant, least by creation time and then id; none only if there is no such runtime |
| `AgentRuntimeInvariant.Reachable` | backend/src/services/agentRuntime/store.ts:84-401 | In every reachable store attempts, leases, workers, timestamps and outputs agree with the status of every runtime |
| `AgentRuntimeInvariant.ActKeepsAttempts` | backend/src/services/agentRuntime/store.ts:168-184 | `attempt` equals the retryable diagnostics when ready, one more while held, completed or unhealthy, and never exceeds the retry limit plus one |
| `AgentRuntimeInvariant.ActKeepsLease` | backend/src/services/agentRuntime/store.ts:168-184 | A runtime has a lease, and a worker, exactly while leased, running or waiting |
| `AgentRuntimeInvariant.ActKeepsOutputs` | backend/src/services/agentRuntime/store.ts:245-278 | At most one output is ever appended, exactly by completing; it is orphaned exactly when the completed runtime is superseded |
| `AgentRuntimeInvariant.NothingToWithdraw` | backend/src/services/agentRuntime/store.ts:345-351 | The orphaning branch of recovery never changes a reachable store |
| `AgentRuntimeInvariant.CallKeepsInv` | backend/src/services/agentRuntime/store.ts:84-439 | Each call keeps that agreement |
| `AgentRuntimeProgress.ActLowersRank` | backend/src/services/agentRuntime/store.ts:218-401 | An explicit measure falls on every status change except switches between running and waiting |
| `AgentRuntimeInvariant.ActFollowsEdge` | backend/src/services/agentRuntime/store.ts:156-401 | The only changes of status, and that an attempt starts exactly with a lease |
| `AgentRuntimeProgress.StatusChangesAreBounded` | backend/src/services/agentRuntime/store.ts:156-401 | In any run, however long, a runtime's status changes at most `3 * limit + 5` times, those switches aside |
| `AgentRuntimeLongestRun.LongestRun` | backend/src/services/agentRuntime/store.ts:84-401 | That bound is the least: for every limit a run from the empty store, with an advancing clock and fresh tokens, reaches it |
| `AgentRuntimeProgress.CountersCountDiagnostics` | backend/src/services/agentRuntime/store.ts:303-400 | `retryCount` and `failureCount` equal the retryable and the other diagnostics ever recorded, those of deleted runtimes included |
| `AgentRuntimeProgress.CallBalances` | backend/src/services/agentRuntime/store.ts:281-439 | Each call adds to the counters what it adds to the diagnostics in the store, deletions aside |
| `AgentRuntimeQuotas.QuotasHold` | backend/src/services/agentRuntime/store.ts:84-185 | Under fixed quotas and a clock that does not go back, no tenant has more unexpired leases than both lease quotas allow, nor more active runtimes than its quota, at any time |
| `AgentRuntimeQuotas.LeaseGoesToLeastReady` | backend/src/services/agentRuntime/store.ts:156-167 | In a reachable store a lease call changes only the (creation time, id)-least of all ready runtimes of the tenant |
| `AgentRuntimeRecovery.RecoverSettles` | backend/src/services/agentRuntime/store.ts:342-385 | After recovery no active runtime is past its duration or holds an expired lease |
| `AgentRuntimeRecovery.RecoverCountsStatusChanges` | backend/src/services/agentRuntime/store.ts:342-385 | The returned count is the number of runtimes whose status changed |
| `AgentRuntimeRecovery.RecoverIsIdempotent` | backend/src/services/agentRuntime/store.ts:342-385 | A second recovery with the same clock and quotas returns 0 and changes nothing at all |
| `AgentRuntimeRecovery.RecoveredIsSettled` | backend/src/services/agentRuntime/store.ts:352-381 | Recovery leaves a runtime alone exactly when it has nothing to settle |
| `AgentRuntimeRecovery.CollectKeepsNewest` | backend/src/services/agentRuntime/store.ts:428-439 | Collection keeps exactly the `max(1, retention)` newest terminal runtimes of the tenant, ties by map order |
| `AgentRuntimeRecovery.CollectOnlyRetired` | backend/src/services/agentRuntime/store.ts:428-439 | Collection deletes only terminal runtimes of that tenant and changes no other |
| `AgentRuntimeRecovery.CollectCounts` | backend/src/services/agentRuntime/store.ts:428-439 | Collection returns the number of runtimes deleted |
| `AgentRuntimeRecovery.TopSize` | backend/src/services/agentRuntime/store.ts:428-433 | Of any set of entries exactly the first `n` have fewer than `n` newer ones, so a slice of the sorted list is a choice by rank |
| `AgentRuntimeRetention.TailIsCollected` | backend/src/services/agentRuntime/store.ts:429-437 | The slice of the sorted candidate list holds exactly the entries with that many newer ones |
| `AgentRuntimeEdges.MapKeyIsInjective` | backend/src/services/agentRuntime/store.ts:74-76 | Map keys tell runtimes apart whenever printed ids have no NUL, whatever the tenants contain |
| `AgentRuntimeEdges.CreatingAgain` | backend/src/services/agentRuntime/store.ts:84-108 | Creating an existing runtime gives it back exactly when admitted, with the same context, and below the active quota |
| `AgentRuntimeEdges.CreatingAgainAtQuota` | backend/src/services/agentRuntime/store.ts:87-108 | With a quota of one, the second of two equal requests is refused: creation is not idempotent at the quota |
| `AgentRuntimeEdges.UnhealthyOnlyEnds` | backend/src/services/agentRuntime/store.ts:60 | `unhealthy` is not terminal: it can still be cancelled or time out, and nothing else |
| `AgentRuntimeEdges.UnhealthyIsNotTerminal` | backend/src/services/agentRuntime/store.ts:84-318 | A run from the empty store in which a runtime is unhealthy after three calls and cancelled by the fourth |
| `AgentRuntimeEdges.TerminalStays` | backend/src/services/agentRuntime/store.ts:308-340 | A terminal runtime keeps its contents under every call but supersession |
| `AgentRuntimeStore.MemoryAgentRuntimeStore.Create` | backend/src/services/agentRuntime/store.ts:84-136 | The mutable store's result and whole new state are those of the specification: quota before lookup, identity conflict; the record stored is newly made |
| `AgentRuntimeStore.MemoryAgentRuntimeStore.LeaseNext` | backend/src/services/agentRuntime/store.ts:143-185 | Same for leasing: quota, selection, late timeout, grant in place; what that specification does is `LeaseIsRefusedAtQuota` and `LeaseOutcome` |
| `AgentRuntimeStore.MemoryAgentRuntimeStore.FirstReady` | backend/src/services/agentRuntime/store.ts:156-159 | The scan finds the specification's next runtime |
| `AgentRuntimeStore.MemoryAgentRuntimeStore.CountLeased` | backend/src/services/agentRuntime/store.ts:150-152 | The count is the number of the tenant's unexpired leases |
| `AgentRuntimeStore.MemoryAgentRuntimeStore.CountActive` | backend/src/services/agentRuntime/store.ts:87-88 | The count is the number of the tenant's runtimes that are not terminal |
| `AgentRuntimeStore.MemoryAgentRuntimeStore.Fence` | backend/src/services/agentRuntime/store.ts:187-198 | Gives the record exactly for a claim that passes, else the error for a missing or a stale one |
| `AgentRuntimeStore.MemoryAgentRuntimeStore.SendHeartbeat` | backend/src/services/agentRuntime/store.ts:200-216 | Result and whole new state of a heartbeat, with the latency added |
| `AgentRuntimeStore.MemoryAgentRuntimeStore.Transition` | backend/src/services/agentRuntime/store.ts:218-231 | Result and whole new state of a switch to running or waiting |
| `AgentRuntimeStore.MemoryAgentRuntimeStore.Publish` | backend/src/services/agentRuntime/store.ts:233-279 | Result and whole new state of publishing, with the error cases in the source's order |
| `AgentRuntimeStore.MemoryAgentRuntimeStore.Fail` | backend/src/services/agentRuntime/store.ts:281-306 | Result and whole new state of a failure; what that specification does is `FailOutcome` |
| `AgentRuntimeStore.MemoryAgentRuntimeStore.Cancel` | backend/src/services/agentRuntime/store.ts:308-318 | Result and whole new state of a cancellation |
| `AgentRuntimeStore.MemoryAgentRuntimeStore.Supersede` | backend/src/services/agentRuntime/store.ts:320-340 | Result and whole new state of a supersession, outputs orphaned |
| `AgentRuntimeStore.MemoryAgentRuntimeStore.Recover` | backend/src/services/agentRuntime/store.ts:342-385 | Visiting the entries one by one in place gives the specification's simultaneous recovery and its count |
| `AgentRuntimeStore.MemoryAgentRuntimeStore.Timeout` | backend/src/services/agentRuntime/store.ts:387-401 | Fails the record with a timeout diagnostic and counts the failure |
| `AgentRuntimeStore.MemoryAgentRuntimeStore.SortedRetired` | backend/src/services/agentRuntime/store.ts:429-431 | Insertion gives the stable newest-first order of the terminal entries |
| `AgentRuntimeStore.MemoryAgentRuntimeStore.Collect` | backend/src/services/agentRuntime/store.ts:428-439 | Deleting the tail of the sorted list gives the specification's collection; the records left are old ones |
| `AgentRuntimeStore.MemoryAgentRuntimeStore.ReleaseIfOver` | backend/src/services/agentRuntime/store.ts:352-381 | One record is timed out, or its expired lease taken back, exactly as recovery specifies |
| `AgentRuntimeReplay.Replay` | backend/src/services/agentRuntime/store.ts:62-439 | Making the calls of any run one after the other on a new store object ends in the specified state, so what is proved of runs holds of the object |
| `AgentRuntimeReplay.Perform` | backend/src/services/agentRuntime/store.ts:62-439 | One call on the object, for each kind of call |
| `CircuitBreakerReads.ReadsChangeNothing` | backend/src/runtime/circuitBreaker.ts:95-224 | State and snapshot reads anywhere in a run change no decision to admit or reject, and leave a breaker alike to the one without them at every later time |
| `CircuitBreakerReads.AlikeIsIndistinguishable` | backend/src/runtime/circuitBreaker.ts:167-224 | Alike breakers show the same snapshot and state and make the same next decision at every later time |
| `CircuitBreakerReads.StepKeepsAlike` | backend/src/runtime/circuitBreaker.ts:95-208 | Bisimulation step: alike breakers stay alike under every call step |
| `CircuitBreakerReads.SettleEarly` | backend/src/runtime/circuitBreaker.ts:95-105 | Pruning or refreshing early does not change what doing so later leaves |
| `CircuitBreakerSafety.Reachable` | backend/src/runtime/circuitBreaker.ts:106-208 | After every interleaving of calls and reads, half-open counts exactly its own generation's probes in flight, at most `halfOpenMaxCalls`, and no other phase counts any |
| `CircuitBreakerSafety.ClampNeverBites` | backend/src/runtime/circuitBreaker.ts:183-195 | The clamp at zero has no effect in any reachable state |
| `CircuitBreakerSafety.StaleProbeChangesNothing` | backend/src/runtime/circuitBreaker.ts:182-206 | A probe of an earlier generation changes nothing but its own leaving |
| `CircuitBreakerSafety.Edges` | backend/src/runtime/circuitBreaker.ts:106-208 | The only phase changes, with the exact condition under which half-open is left either way, and when the opening time and the generation change |
| `CircuitBreakerSafety.CoolingRejects` | backend/src/runtime/circuitBreaker.ts:148-169 | Before the cooldown is over an open breaker stays open and admits nothing |
| `CircuitBreakerSafety.NextProbeIsExact` | backend/src/runtime/circuitBreaker.ts:214-224 | The snapshot of an open breaker gives exactly the time from which calls are admitted again |
| `CircuitBreakerSafety.NothingAdmittedDuringCooldown` | backend/src/runtime/circuitBreaker.ts:148-169 | No run with a clock that does not go back admits a call between an opening and `openDurationMs` later |
| `CircuitBreakerWindow.SamplesAreTheWindow` | backend/src/runtime/circuitBreaker.ts:95-164 | In every run the list, pruned at any later time, is the recent part of the last `maxSamples` outcomes since the last close |
| `CircuitBreakerCounting.OpensExactlyAtThreshold` | backend/src/runtime/circuitBreaker.ts:153-164 | In every run a closed breaker opens if and only if a call that is no probe succeeds or fails in a way that counts, and then at least `minimumSamples` positions of the log are in the window, at least `failureThreshold` of them failures |
| `CircuitBreakerCounting.FailuresAreCounted` | backend/src/runtime/circuitBreaker.ts:99-105 | The failure count is the number of positions whose sample failed |
| `CircuitBreakerCounting.OnlyFailuresOpen` | backend/src/runtime/circuitBreaker.ts:153-164 | A run without a failure that counts never opens the breaker, and no sample kept is a failure |
| `CircuitBreakerCounting.SnapshotCountsWindow` | backend/src/runtime/circuitBreaker.ts:214-224 | In every run a snapshot shows the number of outcomes in the window and the number of failures among them |
| `CircuitBreakerCounting.LogOutcome` | backend/src/runtime/circuitBreaker.ts:180-206 | What is recorded: outcomes of calls that are no probes, failures only when they count, since the breaker last closed |
| `CircuitBreakerSafety.AdmittedExactly` | backend/src/runtime/circuitBreaker.ts:148-179 | A call is admitted if and only if the breaker is closed, has been open for `openDurationMs`, or is half-open with fewer than `halfOpenMaxCalls` of its probes in flight; it is a probe unless the breaker is closed |
| `CircuitBreakerSafety.SnapshotExactly` | backend/src/runtime/circuitBreaker.ts:214-224 | A snapshot shows the time of opening, the time of the next probe, the probes in flight, and half-open exactly from that time on |
| `CircuitBreakerOpening.OpensInSomeRun` | backend/src/runtime/circuitBreaker.ts:69-80 | A breaker can open exactly when it keeps as many samples as it needs: valid options with fewer make one that never opens |
| `CircuitBreakerOpening.ShortListNeverOpens` | backend/src/runtime/circuitBreaker.ts:153-164 | With fewer samples kept than needed the breaker stays closed in every run, with any clock |
| `CircuitBreakerWindow.PruneIsRecent` | backend/src/runtime/circuitBreaker.ts:95-98 | On samples in time order dropping stale ones from the front keeps exactly the recent ones |
| `CircuitBreaker.CreateCircuitBreaker` | backend/src/runtime/circuitBreaker.ts:68-87 | A breaker is made exactly for valid options |
| `CircuitBreaker.Breaker.Begin` | backend/src/runtime/circuitBreaker.ts:167-179 | The first half of a call: whole new state, and the call to remember or a rejection |
| `CircuitBreaker.Breaker.Finish` | backend/src/runtime/circuitBreaker.ts:180-208 | The second half of a call: whole new state for success, qualifying and other failures |
| `CircuitBreaker.Breaker.RecordClosed` | backend/src/runtime/circuitBreaker.ts:153-164 | Recording with its loops over the list gives the specified samples and opening, which `OpensExactlyAtThreshold` describes |
| `CircuitBreaker.Breaker.Transition` | backend/src/runtime/circuitBreaker.ts:106-137 | Whole new state of a phase change, pruning included |
| `CircuitBreaker.Breaker.Prune` | backend/src/runtime/circuitBreaker.ts:95-98 | The loop drops exactly the stale front |
| `CircuitBreaker.Breaker.Counts` | backend/src/runtime/circuitBreaker.ts:99-105 | Prunes, then counts samples and failures, as `FailuresAreCounted` counts them |
| `CircuitBreaker.Breaker.GetSnapshot` | backend/src/runtime/circuitBreaker.ts:214-224 | Snapshot and whole new state after refreshing and pruning, which `SnapshotExactly` and `SnapshotCountsWindow` describe |
| `CircuitBreaker.Breaker.GetState` | backend/src/runtime/circuitBreaker.ts:210-213 | Phase after refreshing |
| `RollingLatency.LatencyWindow.Observe` | backend/src/observability/metrics.ts:338-367 | After any observations the ring buffer holds the last 512 values, the sorted list is a sorted permutation of it, and p50, p95, p99 are their nearest-rank quantiles in order |
| `RollingLatency.LatencyWindow.Replace` | backend/src/observability/metrics.ts:343-360 | Ring buffer and sorted list stay in step; the value to remove is always found |
| `RollingLatency.LatencyWindow.Percentile` | backend/src/observability/metrics.ts:361-363 | The value read at the rank is the nearest-rank quantile of the latest values, defined by counting |
| `RollingLatency.OverwriteOldest` | backend/src/observability/metrics.ts:346-348 | Overwriting at the cursor drops the oldest value and appends the new one |
| `RollingLatency.IndexOf` | backend/src/observability/metrics.ts:349 | Finds the first occurrence, or none exactly when there is none |
| `RollingLatency.InsertionIndex` | backend/src/observability/metrics.ts:352-359 | Gives the place after every value not greater |
| `RollingLatency.Safe` | backend/src/observability/metrics.ts:339 | Never negative, and the measurement itself when it is finite and not negative |
| `RollingLatency.SafeExactly` | backend/src/observability/metrics.ts:339 | What is observed for each kind of measurement: itself, or zero when it is negative or not finite |
| `RollingLatency.LatestExactly` | backend/src/observability/metrics.ts:342-351 | The values looked at are all of them up to 512, and then the last 512 |
| `RollingLatency.QuantilesExactly` | backend/src/observability/metrics.ts:360-366 | Which shares the three quantiles stand for: 50, 95 and 99 per cent of the latest values |
| `NearestRank.QuantileSplits` | backend/src/observability/metrics.ts:361-363 | At least the share `q` of the positions holds values up to the quantile, and less than that share values below it |
| `NearestRank.RankIsCeiling` | backend/src/observability/metrics.ts:361-363 | The rank is the least integer that is at least `n * q` |
| `NearestRank.NearestRankIsMonotone` | backend/src/observability/metrics.ts:361-366 | The quantile defined by counting is unique and grows with the quantile |
| `NearestRank.SortedHoldsTheRank` | backend/src/observability/metrics.ts:361-363 | In a sorted list it stands at the rank |
| `NearestRank.NearestRankOfPermutation` | backend/src/observability/metrics.ts:349-360 | It does not depend on the order of the values |
| `NearestRank.Rank` | backend/src/observability/metrics.ts:361-363 | The rank of a quantile is between one and the number of values |
| `LatencyHistogram.ValidateBuckets` | backend/src/observability/metrics.ts:73-82 | Comparing neighbours accepts exactly the non-empty lists of positive, strictly increasing finite bounds |
| `LatencyHistogram.Durations.Observe` | backend/src/observability/metrics.ts:376-399 | Every series holds, for each bound, the number of its observations up to it, their count and sum; other labels are untouched |
| `LatencyHistogram.BucketsAreCumulative` | backend/src/observability/metrics.ts:394-398 | Bucket counts never fall from bound to bound nor exceed the count |
| `LatencyHistogram.CountIn` | backend/src/observability/metrics.ts:394-398 | One pass adds the observation to exactly the buckets that cover it |
| `LatencyHistogram.CreateDurations` | backend/src/observability/metrics.ts:314-317 | A registry is made exactly for valid bounds |
| `IpSyntax.GrammarIsAccepted` | backend/src/middleware/trustedProxy.ts:24-27 | Every text of the grammar of section 2.2 of RFC 4291 is accepted |
| `IpSyntax.AcceptedIsGrammar` | backend/src/middleware/trustedProxy.ts:24-27 | Only such texts are accepted, and reading one and writing it again gives it back |
| `IpSyntax.ReadingOfRender` | backend/src/middleware/trustedProxy.ts:36-39 | Each text has one reading |
| `IpReading.Ipv6Reads` | backend/src/middleware/trustedProxy.ts:24-55 | Every IPv6 text, in either case, compressed or with a dotted tail, with any zone, is read as the value it denotes |
| `IpReading.DotsOfRender` | backend/src/middleware/trustedProxy.ts:29-35 | Exactly the dotted tail is found and replaced by the two groups it stands for |
| `IpReading.ExpandReads` | backend/src/middleware/trustedProxy.ts:36-43 | The groups around a double colon are filled up to eight |
| `IpReading.LowerTextDenotesTheSame` | backend/src/middleware/trustedProxy.ts:28 | Lowering the case keeps the text valid and its value |
| `IpAddress.DottedPrintsItself` | backend/src/middleware/trustedProxy.ts:17-22 | An accepted dotted address is in range and is its own normal form |
| `IpAddress.PrintedV4IsRead` | backend/src/middleware/trustedProxy.ts:17-22 | Every 32-bit value is read back from its printed form |
| `IpRoundTrip.CanonicalIsRead` | backend/src/middleware/trustedProxy.ts:17-55 | Every address of either family is read back from its printed form |
| `IpRoundTrip.ReadIsCanonical` | backend/src/middleware/trustedProxy.ts:17-55 | Whatever is read is in range and carries the one printed form of its family and value |
| `IpRoundTrip.ParseReadsOnce` | backend/src/middleware/trustedProxy.ts:57-68 | Reading the normalised text again gives the address read first |
| `IpRoundTrip.NormalizeIsIdempotent` | backend/src/middleware/trustedProxy.ts:57-68 | Normalising is idempotent and keeps the address |
| `IpRoundTrip.NormalizeDecidesEquality` | backend/src/middleware/trustedProxy.ts:57-68 | Two accepted texts normalise equally exactly when they denote the same address |
| `IpRoundTrip.MappedIsIpv4` | backend/src/middleware/trustedProxy.ts:44-52 | Every way of writing an IPv4-mapped address gives that IPv4 address (section 2.5.5.2 of RFC 4291) |
| `IpRoundTrip.TrimExactly` | backend/src/middleware/trustedProxy.ts:59 | Exactly the space around an address is taken off |
| `IpRoundTrip.CandidateExactly` | backend/src/middleware/trustedProxy.ts:59-60 | Of a bracketed text exactly what stands between the brackets is read; any other text is read as it stands |
| `IpRoundTrip.ZoneIsIgnored` | backend/src/middleware/trustedProxy.ts:25-26 | An address with a zone is read as the address without it |
| `IpRoundTrip.ElidedExactly` | backend/src/middleware/trustedProxy.ts:36-43 | What a text with a double colon denotes: the groups before it stand first, those after it last, zeros between |
| `IpRoundTrip.DottedTailExactly` | backend/src/middleware/trustedProxy.ts:29-35 | A dotted tail stands for the two groups of its four octets |
| `Numerals.DigitsInOrder` | backend/src/middleware/trustedProxy.ts:34-53 | The value of each hexadecimal digit is its place among them, in either case, and digits are printed in lower case |
| `TrustedProxy.ContainsIsInterval` | backend/src/middleware/trustedProxy.ts:87-92 | A range holds exactly the addresses of its family from the network on, `2^(bits - prefix)` of them |
| `TrustedProxy.ParsedRangeHoldsItsAddress` | backend/src/middleware/trustedProxy.ts:70-81 | A parsed range starts at a multiple of its size and holds the address it was written with |
| `TrustedProxy.AcceptedRanges` | backend/src/middleware/trustedProxy.ts:70-81 | A text is a range exactly when it starts with an address and its prefix, mapped bits taken off, fits; prefix, family and network are then those written |
| `TrustedProxy.MappedPrefix` | backend/src/middleware/trustedProxy.ts:76 | Taking 96 off the prefix of a mapped address is right: IPv4 blocks are the blocks of the mapped forms |
| `TrustedProxy.ParsedInOrder` | backend/src/middleware/trustedProxy.ts:83-85 | Parsing ranges gives all of them in order, or the first that is invalid |
| `TrustedProxy.ResolveClientIp` | backend/src/middleware/trustedProxy.ts:94-110 | The result is an error for an invalid range, the peer for an untrusted peer, a missing header or an unreadable hop, and else the rightmost hop outside every range or the leftmost |
| `TrustedProxy.FirstUntrusted` | backend/src/middleware/trustedProxy.ts:106-109 | The scan from the right stops at the last untrusted address, or at the first of the chain |
| `TrustedProxy.ResultIsUnique` | backend/src/middleware/trustedProxy.ts:94-110 | That description determines the result |
| `TrustedProxy.UntrustedPeerIgnoresHeader` | backend/src/middleware/trustedProxy.ts:101 | With an untrusted peer the header does not matter |
| `TrustedProxy.LeftOfClientIsIrrelevant` | backend/src/middleware/trustedProxy.ts:102-110 | Whether any addresses stand left of an untrusted hop, and which, does not change the result |
| `TrustedProxy.EmptyIsNoAddress` | backend/src/middleware/trustedProxy.ts:57-68 | The empty text is no address, so a header with an empty hop is unreadable |
| `TrustedProxy.PeerIsCanonical` | backend/src/middleware/trustedProxy.ts:99 | The peer is the address reported, in canonical form, or 127.0.0.1 when that is none |
| `TrustedClient.ClientExactly` | backend/src/middleware/trustedProxy.ts:94-110 | Hop by hop: the peer when it is in no range or some hop is no address; otherwise the last hop outside every range, and the first hop when there is none |
| `TrustedClient.TrustedExactly` | backend/src/middleware/trustedProxy.ts:101 | An address is trusted if and only if at least one configured range holds it |
| `TrustedClient.HopsExactly` | backend/src/middleware/trustedProxy.ts:102-103 | The hops are read exactly when every one is an address, and in their order |
| `Text.SplitOfJoin` | backend/src/middleware/trustedProxy.ts:19 | Splitting undoes joining of pieces without the separator |
| `Text.JoinOfSplit` | backend/src/middleware/trustedProxy.ts:19 | Joining undoes splitting, and no piece has the separator |
| `SseSplitting.ChunksDoNotMatter` | backend/frontend/services/sse/indexing-events.ts:130-137 | However the text is cut into chunks, the blocks and the rest are those of splitting the whole text |
| `SseSplitting.PiecesOfMore` | backend/frontend/services/sse/indexing-events.ts:135-137 | Blocks already split off stay when text is added |
| `SseSplitting.BlocksOfWritten` | backend/frontend/services/sse/indexing-events.ts:136 | Splitting undoes writing blocks with any separators after them |
| `SseSplitting.SeparatorExactly` | backend/frontend/services/sse/indexing-events.ts:136 | The separators are exactly two line ends, each with or without a carriage return |
| `SseEvents.ParseSseBlock` | backend/frontend/services/sse/indexing-events.ts:25-36 | The line loop gives the last event name and all data values of the block, or nothing without data |
| `SseEvents.ConsumeStream` | backend/frontend/services/sse/indexing-events.ts:130-157 | Delivered progress and ending are those of the blocks of the text read so far, for any chunks and any moment of aborting |
| `SseEvents.DeliverBlocks` | backend/frontend/services/sse/indexing-events.ts:138-144 | Delivery stops at the first terminal or malformed event |
| `SseEvents.EndedStaysEnded` | backend/frontend/services/sse/indexing-events.ts:138-144 | Blocks after the end of delivery add nothing |
| `SseEvents.FieldsAreRead` | backend/frontend/services/sse/indexing-events.ts:19-36 | A block of any fields, with either line end after each, is read as its data values on lines of their own under its last event name, or `message` without one; comments and other fields say nothing, and a block without data is no event |
| `SseEvents.FieldExactly` | backend/frontend/services/sse/indexing-events.ts:19-23 | A line carries the field it was written for and no other, with or without one space after the colon |
| `SseEvents.LinesOfEnded` | backend/frontend/services/sse/indexing-events.ts:28 | With either line end after each line the same lines are read |
| `SseEvents.FrameIsRead` | backend/frontend/services/sse/indexing-events.ts:19-36 | Reading a frame gives the event it was made from, whatever line ends it has |
| `SseEvents.DeliveredExactly` | backend/frontend/services/sse/indexing-events.ts:70-73 | Delivery skips heartbeats and ends at the first event whose name or stage is completed or failed, or whose data is malformed |
| `SseEvents.SentIsDelivered` | backend/frontend/services/sse/indexing-events.ts:105-157 | End to end: whatever events are sent, with any line ends and separators, and however the stream is cut, exactly their progress up to the first terminal one is delivered |
| `SseSubscriptions.ActiveStreams.Subscribe` | backend/frontend/services/sse/indexing-events.ts:175-178 | Subscribing aborts every other running subscription of that repository and no other |
| `SseSubscriptions.ActiveStreams.Finish` | backend/frontend/services/sse/indexing-events.ts:199-201 | Ending a subscription never removes a newer one from the table |
| `SseSubscriptions.ActiveStreams.AtMostOneStreams` | backend/frontend/services/sse/indexing-events.ts:175-178 | At most one running subscription of a repository is not aborted |
| `SseSubscriptions.Reconnect` | backend/frontend/services/sse/indexing-events.ts:180-198 | At most five reconnects, each after a retryable failure, with the scheduled delays |
| `SseSubscriptions.BackoffSchedule` | backend/frontend/services/sse/indexing-events.ts:192 | The delays double from one second and stop at ten, and there are at most five |
| `RankingProperties.NdcgIsProportion` | backend/src/evaluation/retrieval/metrics.ts:92-132 | For every valid benchmark, ranking and cutoff nDCG lies in [0, 1], and is one exactly when the first positions, as many as can be filled, all hold something newly relevant |
| `RankingProperties.ScoresVanishTogether` | backend/src/evaluation/retrieval/metrics.ts:103-153 | nDCG, MRR, recall and precision are positive together or not at all |
| `RankingScores.ReciprocalRank` | backend/src/evaluation/retrieval/metrics.ts:103-112 | If position `i` is relevant and none before it is, MRR times `i + 1` is one; with no relevant position MRR is zero |
| `RankingScores.PrecisionAndRecall` | backend/src/evaluation/retrieval/metrics.ts:103-111 | Precision times the cutoff is the number of relevant positions looked at; recall times the universe is the number of distinct things found there |
| `RankingScores.FileAndSymbolRecall` | backend/src/evaluation/retrieval/metrics.ts:128-136 | File and symbol recall are the shares of the expected ones that occur; without expected symbols symbol recall is one |
| `RankingScores.DuplicatesAndDiversity` | backend/src/evaluation/retrieval/metrics.ts:146-148 | Duplicate rate and file diversity are the shares of positions that repeat an earlier key and of distinct files |
| `RankingScores.TokenScores` | backend/src/evaluation/retrieval/metrics.ts:137-145 | Token efficiency times all tokens is a thousand times the relevant positions, and the relevant tokens are their share of all tokens |
| `RankingScores.TokensAddUp` | backend/src/evaluation/retrieval/metrics.ts:137-145 | Tokens of a list add up over its results, and so do those of relevant results |
| `RankingScores.NdcgExactly` | backend/src/evaluation/retrieval/metrics.ts:92-127 | nDCG is the discounts of the results that bring something new over those of as many first positions as could be filled |
| `RankingScores.FreshExactly` | backend/src/evaluation/retrieval/metrics.ts:113-119 | A result brings something new if and only if it is relevant as something no earlier one is |
| `RankingScores.RelevantExactly` | backend/src/evaluation/retrieval/metrics.ts:77-90 | A result is relevant as an expected chunk, symbol or file, whichever the benchmark names first, unless its file is excluded |
| `RankingScores.SameIdentity` | backend/src/evaluation/retrieval/metrics.ts:56-75 | Two relevant results count as the same exactly when they are the same chunk, symbol or file |
| `RankingScores.KeyExactly` | backend/src/evaluation/retrieval/metrics.ts:146-147 | A duplicate has the same chunk id, or without one the same file and lines |
| `RankingProperties.ScoresAreProportions` | backend/src/evaluation/retrieval/metrics.ts:147-160 | Every score but token efficiency lies in [0, 1]; which proportions they are is stated in `RankingScores` |
| `RankingProperties.RelevanceAgrees` | backend/src/evaluation/retrieval/metrics.ts:56-90 | `isRelevant` agrees with `relevanceIdentity` exactly when a blank symbol is not counted as expected |
| `RankingProperties.ValidRelevanceAgrees` | backend/src/evaluation/retrieval/schema.ts:16-33 | Under the schema they always agree, and every relevant result gains the same |
| `RankingProperties.FreshMarksCountIdentities` | backend/src/evaluation/retrieval/metrics.ts:107-121 | Gains go to as many results as there are distinct identities |
| `RankingProperties.MeanExactly` | backend/src/evaluation/retrieval/metrics.ts:186-190 | An aggregate times the number of cases is the sum of their scores; of none it is zero |
| `RankingProperties.MeanOfProportions` | backend/src/evaluation/retrieval/metrics.ts:168-190 | Aggregated proportions are proportions |
| `RankingMetrics.ComputeGains` | backend/src/evaluation/retrieval/metrics.ts:113-119 | The pass with its set of seen identities gives gain exactly to the first result of each |
| `RankingMetrics.FirstRelevant` | backend/src/evaluation/retrieval/metrics.ts:112 | The first relevant position, or none |
| `DiscountedGain.FirstPositionsAreBest` | backend/src/evaluation/retrieval/metrics.ts:92-95 | Rearrangement: any positions are worth at most as many first ones, and as much only if they are the first |
| `DiscountedGain.MarkedIsBounded` | backend/src/evaluation/retrieval/metrics.ts:92-95 | With at most `m` marks the sum is at most that of `m` first positions, with equality only there |
| `ShutdownSafety.Reachable` | backend/src/runtime/shutdownCoordinator.ts:62-173 | Every interleaving of signals, timer and callbacks keeps tasks in order, each once and after the previous settled, and the completion in step with what happened |
| `ShutdownSafety.OneCompletion` | backend/src/runtime/shutdownCoordinator.ts:152-173 | All requests share one completion and it is resolved at most once |
| `ShutdownSafety.FirstSignalWins` | backend/src/runtime/shutdownCoordinator.ts:152-166 | The signal of the shutdown is the first requested |
| `ShutdownSafety.ExitCodeTellsAll` | backend/src/runtime/shutdownCoordinator.ts:123-150 | The exit code is zero exactly when the timer did not win and every task and both flushes succeeded, and one otherwise; the outcome says whether the timer won |
| `ShutdownSafety.CompletesWithoutTimeout` | backend/src/runtime/shutdownCoordinator.ts:97-150 | When the timer does not fire, every task runs and both flushes are made, whatever fails, and then the result is completed and 0 if all succeeded, else failed and 1 |
| `ShutdownSafety.NeverStuck` | backend/src/runtime/shutdownCoordinator.ts:62-150 | Once shutting down, either the completion is resolved or a callback is still awaited |
| `ShutdownSafety.TimeoutResolves` | backend/src/runtime/shutdownCoordinator.ts:62-95 | After a timeout the forced stop alone resolves the completion, in any run in which its two callbacks settle, whatever else happens before, between and after |
| `ShutdownSafety.StartsAfterTimeout` | backend/src/runtime/shutdownCoordinator.ts:109-121 | A task starts after the timeout exactly when the pending one fails and is not the last |
| `ShutdownSafety.TaskAfterTimeoutHappens` | backend/src/runtime/shutdownCoordinator.ts:109-121 | A run in which that happens |
| `ShutdownCoordinator.Coordinator.RequestShutdown` | backend/src/runtime/shutdownCoordinator.ts:152-170 | Every request returns the completion of the first; whole new state of a request in any phase |
| `ShutdownCoordinator.Coordinator.TimerFires` | backend/src/runtime/shutdownCoordinator.ts:62-65 | Whole new state when the timer fires in any phase |
| `ShutdownCoordinator.Coordinator.TaskSettles` | backend/src/runtime/shutdownCoordinator.ts:109-121 | Whole new state when the awaited task settles |
| `ShutdownCoordinator.Coordinator.FlushSettles` | backend/src/runtime/shutdownCoordinator.ts:131-149 | Whole new state when the awaited flush settles, with the one resolution; a resolved completion keeps its result |
| `ShutdownCoordinator.Coordinator.ForceStopSettles` | backend/src/runtime/shutdownCoordinator.ts:67-78 | Whole new state when the forced stop settles |
| `ShutdownCoordinator.Coordinator.ForcedFlushSettles` | backend/src/runtime/shutdownCoordinator.ts:83-94 | Whole new state when the forced flush settles, with the one resolution; a resolved completion keeps its result |
| `Retry.RunWithRetry` | backend/src/runtime/retry.ts:85-126 | Attempts are numbered from one, end exactly where the first decision says so, and report one scheduled per retry and then at most one ending; the final throw is unreachable; invalid options end it at once |
| `Retry.DelayExactly` | backend/src/runtime/retry.ts:38-49 | A delay exists exactly for positive arguments; it is at least one and lies between 0.8 and 1.2 times the step of its retry, rounded, where steps double from the base up to the maximum; in between it is 0.8 + 0.4 times the random value |
| `Retry.DelaysDouble` | backend/src/runtime/retry.ts:38-49 | With the random source in the middle the first delay is the lesser of maximum and base, and each next one the lesser of the maximum and twice the one before |
| `Retry.RoundIsNearest` | backend/src/runtime/retry.ts:48 | Rounding goes to the nearest integer, halves upwards |
| `Retry.DelayInRange` | backend/src/runtime/retry.ts:38-49 | Every delay is at least one and within the jitter of base and maximum, whatever the random source returns |
| `Retry.DecisionExactly` | backend/src/runtime/retry.ts:92-123 | When an attempt is followed by another: it was not stopped, it failed in a retryable way, attempts are left, and the delay ends before the deadline and within the budget; otherwise which ending it is |
| `Retry.ValidOptions` | backend/src/runtime/retry.ts:85-89 | The options accepted are positive integers that are exact as numbers, the budget only when given |
| `Retry.ScheduledDelayFits` | backend/src/runtime/retry.ts:106-123 | A scheduled delay is in range and ends before the deadline |
| `Retry.DelaysFitBudget` | backend/src/runtime/retry.ts:108-119 | When the clock moves on by at least each sleep, the delays of a run sum to at most the budget |
| `Retry.EndingIsUnique` | backend/src/runtime/retry.ts:92-125 | A run has exactly one ending |
| `Deadline.FirstReasonSticks` | backend/src/runtime/deadline.ts:38-66 | The signal keeps the first reason it is given before disposal, and gets none after |
| `Deadline.ReasonExactly` | backend/src/runtime/deadline.ts:38-61 | The first event that changes anything decides: the timer, or a question at or after the deadline, gives the deadline's own reason, an aborted parent its reason, a disposal none |
| `Deadline.ThrowsWhenOver` | backend/src/runtime/deadline.ts:52-58 | Asking throws exactly when aborted or late; the reason is undefined exactly after a disposal without one |
| `Deadline.DisposedThrowsUndefined` | backend/src/runtime/deadline.ts:52-61 | A run in which that happens: dispose, then ask late |
| `Deadline.Timer.ThrowIfExpired` | backend/src/runtime/deadline.ts:52-58 | What is thrown, and the whole new state |
| `Deadline.Timer.Fire` | backend/src/runtime/deadline.ts:39-41 | Aborts the signal unless disposed or aborted |
| `Deadline.CreateDeadline` | backend/src/runtime/deadline.ts:29-48 | A deadline is made exactly for a positive timeout, aborted at once under an aborted parent |
| `Deadline.Remaining` | backend/src/runtime/deadline.ts:51 | The time left is positive exactly before the deadline |
| `CursorPagination.WalkShowsAll` | backend/src/routes/engineeringPlatformApi.ts:73-95 | Following cursors shows exactly the items, in order and once, in max(1, ⌈n / limit⌉) pages |
| `CursorPagination.WalkExists` | backend/src/routes/engineeringPlatformApi.ts:73-95 | There is such a walk: no cursor handed out is refused |
| `CursorPagination.AcceptedCursors` | backend/src/routes/engineeringPlatformApi.ts:56-71 | Exactly the canonical cursors of non-empty keys are accepted, each for its own key |
| `CursorPagination.OtherCursorsAreInvalid` | backend/src/routes/engineeringPlatformApi.ts:60-71 | An absent or empty cursor names no item; any other is refused as invalid if and only if it is the cursor of no key |
| `CursorPagination.StaleExactlyWhenGone` | backend/src/routes/engineeringPlatformApi.ts:79-85 | A canonical cursor is stale exactly when no item has its key |
| `CursorPagination.CursorContinues` | backend/src/routes/engineeringPlatformApi.ts:79-94 | With distinct keys a cursor continues right after its item |
| `Base64Url.DecodeOfEncode` | backend/src/routes/engineeringPlatformApi.ts:56-65 | Decoding undoes encoding (section 5 of RFC 4648) |
| `Base64Url.EncodedExactly` | backend/src/routes/engineeringPlatformApi.ts:56-58 | The alphabet and the order of the bits (section 5 of RFC 4648): each three bytes are the four letters of the same 24 bits, and left-over bytes two or three letters |
| `Base64Url.EncodedLength` | backend/src/routes/engineeringPlatformApi.ts:56-58 | Encoding is unpadded: four letters for three bytes, rounded up |

## Left out

- The Postgres store, HTTP routes, authentication, logging, tracing, rendering of metrics and the user interface: input and output, or logic in SQL that is not part of this model.
- `get`, `outputs`, `metrics` and `verify` of the store, and the counters of the registry that only add one: easy reads.
- The capability registry and input validation: `create` is told whether the context is admitted, `publish` whether the output is well formed and how many bytes it has; the output limit of every agent is the registry's common constant.
- Agent version, capability and hash fields of runtimes and outputs: they follow from the agent id and never change.
- `stableId` and `stableHash`: an id is a number given by a function of context and agent, comparing contexts by hash is comparing them, and `localeCompare` on fixed-width hexadecimal ids and ISO timestamps is comparing numbers.
- `Array.prototype.sort` is a scan for the least element in `leaseNext` and a stable insertion in `collect`; `Map` order is an explicit list.
- `randomUUID` and `Date`: tokens and clock readings are arguments; all readings in one synchronous breaker step agree.
- CircuitBreaker.Breaker.Finish: whether a failure counts and whether the caller cancelled are folded into one flag; log and metric calls are left out except that a rejection prunes only when there is a logger.
- Floating-point rounding in quantile ranks, jitter, sums and logarithms.
- IpSyntax.AcceptedIsGrammar: the runtime's `isIP` is not part of the repository; its grammar is taken from RFC 4291, without leading zeros in dotted numbers.
- TrustedProxy.ResolveClientIp: `Number` applied to a prefix is a function argument; the default peer is the canonical address of 0x7f000001.
- Text.Lower changes ASCII letters only, which is all that accepted addresses contain.
- SseEvents.ConsumeStream: the connection, the text decoder and `JSON.parse` with its shape test are a list of chunks and a function argument; the error path for a failed response is not modelled.
- SseEvents.FrameIsRead: the sending library is not part of the repository; a frame is an event line and one data line for each line of data.
- SseSubscriptions.Reconnect: how each connection ends is given by a function of its number.
- Latency and reranker rates of the ranking metrics: copied or divided inputs.
- RankingMetrics.FirstRelevant and the other scores take the cutoff already truncated; `normalized` is any function of text.
- ShutdownSafety.Reachable: the timer's handle is not modelled (firing late has no effect), and a callback that is not configured counts as one that settles without error.
- Retry.RunWithRetry: what each attempt meets (abort, outcome, random value, clock) is given by a function of its number; error classification and the settling of `sleep` and `waitForDeadline` are left out.
- CursorPagination.AcceptedCursors: UTF-8 is any pair of functions that reads every text back; keys with lone surrogates are outside that.
