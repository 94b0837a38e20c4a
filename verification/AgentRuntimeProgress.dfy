/** Termination and conservation: every runtime runs down a measure, and the counters count diagnostics. */
module AgentRuntimeProgress {
  import opened Wrappers
  import opened AgentRuntimeTypes
  import opened AgentRuntimeSpec
  import opened AgentRuntimeRuns
  import opened AgentRuntimeInvariant

  // ---------- The measure ----------

  /** The status changes a runtime may still have before it, running/waiting switches aside. */
  function Rank(r: Runtime): int {
    var base := 3 * (RetryLimit(r) - r.attempt);
    match r.status
    case Leased => base + 7
    case Running | Waiting => base + 6
    case Ready => base + 5
    case Unhealthy => 2
    case Completed | Failed => 1
    case Cancelled => 0
  }

  predicate IsSwitch(a: Status, b: Status) { a in {Running, Waiting} && b in {Running, Waiting} }

  lemma RankIsBounded(r: Runtime)
    requires AttemptsAccounted(r)
    ensures 0 <= Rank(r) <= 3 * RetryLimit(r) + 5
  {
  }

  lemma ActLowersRank(r: Runtime, r': Runtime, e: Event, now: int)
    requires AttemptsAccounted(r) && AttemptsAccounted(r') && LeaseAgrees(r) && Acts(r, r', e, now)
    ensures Rank(r') <= Rank(r)
    ensures r'.status != r.status && !IsSwitch(r.status, r'.status) ==> Rank(r') < Rank(r)
  {
    hide Acts, LeaseAgrees, Tally;
    ActFollowsEdge(r, r', e, now);
    assert RetryLimit(r') == RetryLimit(r);
  }

  /** How often the status changes along a history, running/waiting switches aside. */
  function StatusChanges(history: seq<Runtime>): nat {
    if |history| <= 1 then 0
    else
      var a, b := history[|history| - 2].status, history[|history| - 1].status;
      StatusChanges(history[..|history| - 1]) + if a != b && !IsSwitch(a, b) then 1 else 0
  }

  predicate LowersRank(a: Runtime, b: Runtime) {
    && Rank(b) <= Rank(a)
    && (a.status != b.status && !IsSwitch(a.status, b.status) ==> Rank(b) < Rank(a))
  }

  lemma {:induction false} ChangesAreBoundedByRank(history: seq<Runtime>)
    requires history != [] && forall i :: 0 <= i < |history| - 1 ==> LowersRank(history[i], history[i + 1])
    ensures StatusChanges(history) <= Rank(history[0]) - Rank(history[|history| - 1])
  {
    var last := |history| - 1;
    if last > 0 {
      ChangesAreBoundedByRank(history[..last]);
      assert LowersRank(history[last - 1], history[last]);
    }
  }

  lemma CallLowersRank(s: State, identify: Identify, e: Event, now: int, k: Key)
    requires Inv(s) && k in s.runtimes && k in Apply(s, identify, e, now).runtimes
    ensures LowersRank(s.runtimes[k], Apply(s, identify, e, now).runtimes[k])
  {
    var t := Apply(s, identify, e, now);
    CallKeepsInv(s, identify, e, now);
    assert RuntimeInv(s.runtimes[k], s.OutputsOf(k)) && RuntimeInv(t.runtimes[k], t.OutputsOf(k));
    EntryAfter(s, identify, e, now, k);
    if t.runtimes[k] != s.runtimes[k] {
      ActLowersRank(s.runtimes[k], t.runtimes[k], e, now);
    }
  }

  /** The stores around the calls of a run that starts from a reachable store. */
  ghost predicate IsTrace(states: seq<State>, run: seq<Timed>, identify: Identify) {
    && |states| == |run| + 1
    && Inv(states[0])
    && forall m :: 0 <= m < |run| ==> IsCall(states, run, identify, m)
  }

  ghost predicate IsCall(states: seq<State>, run: seq<Timed>, identify: Identify, m: nat)
    requires m < |run| < |states|
  {
    WellFormed(states[m]) && states[m + 1] == Apply(states[m], identify, run[m].event, run[m].now)
  }

  lemma {:induction false} TraceKeepsInv(states: seq<State>, run: seq<Timed>, identify: Identify, m: nat)
    requires IsTrace(states, run, identify) && m <= |run|
    ensures Inv(states[m])
  {
    hide Inv, Apply, WellFormed;
    if m > 0 {
      TraceKeepsInv(states, run, identify, m - 1);
      assert IsCall(states, run, identify, m - 1);
      CallKeepsInv(states[m - 1], identify, run[m - 1].event, run[m - 1].now);
    }
  }

  /** However long the run, the status of a runtime that stays in the store changes at most `3 * limit + 5` times. */
  lemma {:induction false} StatusChangesAreBounded(
    states: seq<State>, run: seq<Timed>, identify: Identify, k: Key, history: seq<Runtime>)
    requires IsTrace(states, run, identify) && |history| == |states|
    requires forall m :: 0 <= m < |states| ==> k in states[m].runtimes && history[m] == states[m].runtimes[k]
    ensures StatusChanges(history) <= 3 * RetryLimit(history[0]) + 5
  {
    forall m | 0 <= m < |history| - 1 ensures LowersRank(history[m], history[m + 1]) {
      TraceKeepsInv(states, run, identify, m);
      assert IsCall(states, run, identify, m);
      CallLowersRank(states[m], identify, run[m].event, run[m].now, k);
    }
    ChangesAreBoundedByRank(history);
    RankNow(states, run, identify, 0, k);
    RankNow(states, run, identify, |run|, k);
  }

  lemma RankNow(states: seq<State>, run: seq<Timed>, identify: Identify, m: nat, k: Key)
    requires IsTrace(states, run, identify) && m <= |run| && k in states[m].runtimes
    ensures var r := states[m].runtimes[k]; 0 <= Rank(r) <= 3 * RetryLimit(r) + 5
  {
    TraceKeepsInv(states, run, identify, m);
    assert RuntimeInv(states[m].runtimes[k], states[m].OutputsOf(k));
    RankIsBounded(states[m].runtimes[k]);
  }

  // ---------- The counters ----------

  function TallyOver(order: seq<Key>, runtimes: map<Key, Runtime>, retryable: bool): nat
    requires forall k :: k in order ==> k in runtimes
  {
    if order == [] then 0
    else
      var last := |order| - 1;
      TallyOver(order[..last], runtimes, retryable) + Tally(runtimes[order[last]].diagnostics, retryable)
  }

  /** Diagnostics of one kind held by the runtimes in the store. */
  ghost function LiveTally(s: State, retryable: bool): nat
    requires WellFormed(s)
  {
    TallyOver(s.order, s.runtimes, retryable)
  }

  /** If exactly the runtimes of `grown` got one more diagnostic of a kind, the sum grew by their number. */
  lemma {:induction false} TallyGrows(order: seq<Key>, before: map<Key, Runtime>, after: map<Key, Runtime>,
                                      grown: set<Key>, retryable: bool)
    requires Distinct(order) && forall k :: k in grown ==> k in order
    requires forall k :: k in order ==> k in before && k in after
    requires forall k :: k in order ==>
      Tally(after[k].diagnostics, retryable) == Tally(before[k].diagnostics, retryable) + (if k in grown then 1 else 0)
    ensures TallyOver(order, after, retryable) == TallyOver(order, before, retryable) + |grown|
  {
    if order == [] {
      assert grown == {};
    } else {
      var init, k := order[..|order| - 1], order[|order| - 1];
      LastIsNew(order);
      TallyGrows(init, before, after, grown - {k}, retryable);
      assert |grown| == |grown - {k}| + if k in grown then 1 else 0 by {
        if k !in grown {
          assert grown - {k} == grown;
        }
      }
    }
  }

  lemma LastIsNew(order: seq<Key>)
    requires Distinct(order) && order != []
    ensures var init, k := order[..|order| - 1], order[|order| - 1];
      Distinct(init) && k !in init && forall x :: x in order <==> x in init || x == k
  {
  }

  lemma {:induction false} TallySplits(order: seq<Key>, runtimes: map<Key, Runtime>, gone: set<Key>, retryable: bool)
    requires forall k :: k in order ==> k in runtimes
    ensures TallyOver(order, runtimes, retryable)
         == TallyOver(Without(order, gone), runtimes, retryable)
          + TallyOver(Without(order, runtimes.Keys - gone), runtimes, retryable)
  {
    if order != [] {
      var init, k := order[..|order| - 1], order[|order| - 1];
      TallySplits(init, runtimes, gone, retryable);
      TallyLast(Without(init, gone), k, runtimes, retryable);
      TallyLast(Without(init, runtimes.Keys - gone), k, runtimes, retryable);
    }
  }

  lemma TallyLast(order: seq<Key>, k: Key, runtimes: map<Key, Runtime>, retryable: bool)
    requires k in runtimes && forall x :: x in order ==> x in runtimes
    ensures TallyOver(order + [k], runtimes, retryable)
         == TallyOver(order, runtimes, retryable) + Tally(runtimes[k].diagnostics, retryable)
  {
    assert (order + [k])[..|order|] == order;
  }

  lemma {:induction false} TallyAgrees(order: seq<Key>, a: map<Key, Runtime>, b: map<Key, Runtime>, retryable: bool)
    requires forall k :: k in order ==> k in a && k in b && a[k] == b[k]
    ensures TallyOver(order, a, retryable) == TallyOver(order, b, retryable)
  {
    if order != [] {
      TallyAgrees(order[..|order| - 1], a, b, retryable);
    }
  }

  function Counter(s: State, retryable: bool): int { if retryable then s.retryCount else s.failureCount }

  /** Diagnostics of one kind on the runtimes that a call deletes. */
  ghost function DroppedTally(s: State, e: Event, retryable: bool): nat
    requires WellFormed(s)
  {
    if e.Collection? then
      TallyOver(Without(s.order, s.runtimes.Keys - CollectedKeys(s, e.tenantId, e.retention)), s.runtimes, retryable)
    else 0
  }

  /** What a call adds to the diagnostics of one kind in the store, deletions aside, it adds to their counter. */
  ghost predicate Balanced(s: State, t: State, dropped: nat, retryable: bool)
    requires WellFormed(s) && WellFormed(t)
  {
    LiveTally(t, retryable) + dropped - LiveTally(s, retryable) == Counter(t, retryable) - Counter(s, retryable)
  }

  /** Enough for `Balanced`: the same entries, and `grown` of them with one more diagnostic. */
  lemma GrownIsBalanced(s: State, t: State, grown: set<Key>, retryable: bool)
    requires WellFormed(s) && WellFormed(t) && t.order == s.order && grown <= s.runtimes.Keys
    requires forall k :: k in s.runtimes ==>
      Tally(t.runtimes[k].diagnostics, retryable)
      == Tally(s.runtimes[k].diagnostics, retryable) + (if k in grown then 1 else 0)
    requires Counter(t, retryable) == Counter(s, retryable) + |grown|
    ensures Balanced(s, t, 0, retryable)
  {
    TallyGrows(s.order, s.runtimes, t.runtimes, grown, retryable);
  }

  lemma FailBalances(s: State, c: Claim, code: FailureCode, message: string, quotas: Quotas, now: int, retryable: bool)
    requires WellFormed(s)
    ensures Balanced(s, Fail(s, c, code, message, quotas, now).0, 0, retryable)
  {
    hide WellFormed;
    if Fenced(s, c, now) {
      var k, t := c.Target(), Fail(s, c, code, message, quotas, now).0;
      var status := FailStatus(s.runtimes[k], code, quotas.retries);
      assert t.runtimes == s.runtimes[k := Diagnosed(s.runtimes[k], status, code, message, now)];
      TallyAppend(s.runtimes[k].diagnostics, Diagnostic(code, message, status == Ready, now), retryable);
      GrownIsBalanced(s, t, if (status == Ready) == retryable then {k} else {}, retryable);
    }
  }

  lemma LeaseNextBalances(s: State, tenantId: string, workerId: string, leaseMs: int,
                          quotas: Quotas, token: nat, now: int, retryable: bool)
    requires WellFormed(s)
    ensures Balanced(s, LeaseNext(s, tenantId, workerId, leaseMs, quotas, token, now).0, 0, retryable)
  {
    hide WellFormed, NextReady;
    var t := LeaseNext(s, tenantId, workerId, leaseMs, quotas, token, now).0;
    if t != s {
      LeaseNextActs(s, tenantId, workerId, leaseMs, quotas, token, now);
      var k := NextReady(s, tenantId, |s.order|).value;
      var late := PastDuration(s.runtimes[k], quotas.runtimeDurationMs, now);
      if late {
        TallyAppend(s.runtimes[k].diagnostics,
                    Diagnostic(RuntimeTimeout, TIMEOUT_MESSAGE, false, now), retryable);
      }
      GrownIsBalanced(s, t, if late && !retryable then {k} else {}, retryable);
    }
  }

  lemma RecoveredTally(r: Runtime, quotas: Option<Quotas>, now: int, retryable: bool)
    ensures var r' := Recovered(r, quotas, now);
      Tally(r'.diagnostics, retryable) == Tally(r.diagnostics, retryable) +
        (if r' != r && (r'.status == Ready) == retryable then 1 else 0)
  {
    var r' := Recovered(r, quotas, now);
    if r' != r {
      TallyAppend(r.diagnostics, r'.diagnostics[|r.diagnostics|], retryable);
    }
  }

  lemma RecoverBalances(s: State, quotas: Option<Quotas>, now: int, retryable: bool)
    requires WellFormed(s)
    ensures Balanced(s, Recover(s, quotas, now).0, 0, retryable)
  {
    var t, all := Recover(s, quotas, now).0, s.runtimes.Keys;
    var grown := Outcomes(s, all, quotas, now, retryable);
    forall k | k in s.runtimes
      ensures Tally(t.runtimes[k].diagnostics, retryable)
           == Tally(s.runtimes[k].diagnostics, retryable) + (if k in grown then 1 else 0)
    {
      RecoveredTally(s.runtimes[k], quotas, now, retryable);
    }
    GrownIsBalanced(s, t, grown, retryable);
  }

  lemma CreateBalances(s: State, identify: Identify, agentId: string, context: Context,
                       admitted: bool, quotas: Quotas, now: int, retryable: bool)
    requires WellFormed(s)
    ensures Balanced(s, Create(s, identify, agentId, context, admitted, quotas, now).0, 0, retryable)
  {
    var t := Create(s, identify, agentId, context, admitted, quotas, now).0;
    if t != s {
      assert t.order[..|s.order|] == s.order;
      TallyAgrees(s.order, s.runtimes, t.runtimes, retryable);
    }
  }

  lemma CollectBalances(s: State, tenantId: string, retention: int, retryable: bool)
    requires WellFormed(s)
    ensures Balanced(s, Collect(s, tenantId, retention).0,
      TallyOver(Without(s.order, s.runtimes.Keys - CollectedKeys(s, tenantId, retention)), s.runtimes, retryable),
      retryable)
  {
    var t, gone := Collect(s, tenantId, retention).0, CollectedKeys(s, tenantId, retention);
    TallySplits(s.order, s.runtimes, gone, retryable);
    TallyAgrees(t.order, s.runtimes, t.runtimes, retryable);
  }

  predicate IsQuiet(e: Event) { KeepsLease(e) || e.Publication? || e.Cancellation? || e.Supersession? }

  /** These calls touch no diagnostics, no counter and no entry's place. */
  lemma QuietKeepsEntries(s: State, identify: Identify, e: Event, now: int)
    requires WellFormed(s) && IsQuiet(e)
    ensures var t := Apply(s, identify, e, now);
      && t.order == s.order && t.runtimes.Keys == s.runtimes.Keys
      && t.retryCount == s.retryCount && t.failureCount == s.failureCount
  {
    hide WellFormed;
  }

  lemma QuietBalances(s: State, identify: Identify, e: Event, now: int, retryable: bool)
    requires WellFormed(s) && IsQuiet(e)
    ensures Balanced(s, Apply(s, identify, e, now), 0, retryable)
  {
    var t := Apply(s, identify, e, now);
    QuietKeepsEntries(s, identify, e, now);
    forall k | k in s.runtimes ensures t.runtimes[k].diagnostics == s.runtimes[k].diagnostics {
      EntryAfter(s, identify, e, now, k);
    }
    GrownIsBalanced(s, t, {}, retryable);
  }

  lemma CallBalances(s: State, identify: Identify, e: Event, now: int, retryable: bool)
    requires WellFormed(s)
    ensures Balanced(s, Apply(s, identify, e, now), DroppedTally(s, e, retryable), retryable)
  {
    match e
    case Creation(agentId, context, admitted, quotas) =>
      CreateBalances(s, identify, agentId, context, admitted, quotas, now, retryable);
    case Leasing(tenantId, workerId, leaseMs, quotas, token) =>
      LeaseNextBalances(s, tenantId, workerId, leaseMs, quotas, token, now, retryable);
    case Failure(c, code, message, quotas) => FailBalances(s, c, code, message, quotas, now, retryable);
    case Recovery(scope) => RecoverBalances(s, scope, now, retryable);
    case Collection(tenantId, retention) => CollectBalances(s, tenantId, retention, retryable);
    case _ => QuietBalances(s, identify, e, now, retryable);
  }

  /** Diagnostics of one kind on all runtimes deleted during a run. */
  ghost function DroppedBy(run: seq<Timed>, identify: Identify, retryable: bool): nat {
    if run == [] then 0
    else
      var last := |run| - 1;
      DroppedBy(run[..last], identify, retryable) +
        DroppedTally(After(run[..last], identify), run[last].event, retryable)
  }

  /** The retry and failure counters are the numbers of such diagnostics ever recorded, deleted runtimes included. */
  lemma {:induction false} CountersCountDiagnostics(run: seq<Timed>, identify: Identify, retryable: bool)
    ensures Counter(After(run, identify), retryable)
         == LiveTally(After(run, identify), retryable) + DroppedBy(run, identify, retryable)
  {
    if run != [] {
      var last := |run| - 1;
      CountersCountDiagnostics(run[..last], identify, retryable);
      CallBalances(After(run[..last], identify), identify, run[last].event, run[last].now, retryable);
    }
  }
}
