/** The bound on status changes is reached: a run in which a runtime changes status as often as one can. */
module AgentRuntimeLongestRun {
  import opened Wrappers
  import opened AgentRuntimeTypes
  import opened AgentRuntimeSpec
  import opened AgentRuntimeRuns
  import opened AgentRuntimeInvariant
  import opened AgentRuntimeProgress

  // ---------- One runtime on its own ----------

  /** The key of the only runtime. */
  function KeyOf(r: Runtime): Key { Key("tenant", r.runtimeId) }

  /** Quotas and limits that allow one runtime, `limit` retries, and a duration of a millisecond. */
  function QuotasFor(limit: nat): Quotas { Quotas(1, 1, 1, 1, limit, 1) }

  function ContextFor(limit: nat): Context { Context("tenant", "v1", "w1", Limits(1, limit), "") }

  /** The claim of the worker that was given the token. */
  function ClaimFor(r: Runtime, token: nat): Claim { Claim("tenant", r.runtimeId, "v1", "w1", "worker", token) }

  /** A store that holds the runtime alone, and its counters. */
  function Alone(r: Runtime, retries: nat, failures: nat): State {
    EMPTY.(runtimes := map[KeyOf(r) := r], order := [KeyOf(r)], retryCount := retries, failureCount := failures)
  }

  function LeaseCall(limit: nat, attempt: nat): Event { Leasing("tenant", "worker", 1, QuotasFor(limit), attempt) }

  function FailCall(r: Runtime, limit: nat, attempt: nat): Event {
    Failure(ClaimFor(r, attempt), TransientRuntimeFailure, "", QuotasFor(limit))
  }

  /** The runtime was made at time 0 for the given limit. */
  predicate IsOurs(r: Runtime, limit: nat) {
    && r.tenantId == "tenant" && r.executionVersion == "v1" && r.workUnitVersion == "w1"
    && r.context == ContextFor(limit) && r.createdAt == 0 && r.supersededBy.None?
  }

  /** The call, made at `now`, turns the store with `r` into the one with `r'`. */
  ghost predicate Turns(s: State, t: State, identify: Identify, e: Event, now: int) {
    WellFormed(s) && Apply(s, identify, e, now) == t
  }

  lemma LeaseTurns(identify: Identify, limit: nat, r: Runtime, retries: nat)
    requires IsOurs(r, limit) && r.status == Ready && r.lease.None?
    ensures var r' := Granted(r, "worker", r.attempt, 1, 0);
      Turns(Alone(r, retries, 0), Alone(r', retries, 0), identify, LeaseCall(limit, r.attempt), 0)
  {
    var s := Alone(r, retries, 0);
    assert UnexpiredLeases(s, "tenant", 0) == {};
    assert IsCandidate(s, "tenant", s.order[0]);
    assert NextReady(s, "tenant", 1) == Some(KeyOf(r));
  }

  lemma ResumeTurns(identify: Identify, limit: nat, r: Runtime, retries: nat, token: nat)
    requires IsOurs(r, limit) && r.status == Leased && r.lease == Some(Lease("worker", token, r.attempt, 0, 0, 1))
    ensures Turns(Alone(r, retries, 0), Alone(r.(status := Running, updatedAt := 0), retries, 0),
                  identify, Resuming(ClaimFor(r, token)), 0)
  {
  }

  lemma FailTurns(identify: Identify, limit: nat, r: Runtime, retries: nat, token: nat)
    requires IsOurs(r, limit) && r.status.Held() && r.lease == Some(Lease("worker", token, r.attempt, 0, 0, 1))
    ensures var status := if r.attempt <= limit then Ready else Unhealthy;
      var r' := Diagnosed(r, status, TransientRuntimeFailure, "", 0);
      var counted := if status == Ready then Alone(r', retries + 1, 0) else Alone(r', retries, 1);
      Turns(Alone(r, retries, 0), counted, identify, FailCall(r, limit, token), 0)
  {
    var s, c, q := Alone(r, retries, 0), ClaimFor(r, token), QuotasFor(limit);
    AloneIsWellFormed(r, retries, 0);
    assert Fenced(s, c, 0);
    hide WellFormed, Fenced, Diagnosed;
    var status := FailStatus(r, TransientRuntimeFailure, limit);
    assert Fail(s, c, TransientRuntimeFailure, "", q, 0).0
        == Settle(s, KeyOf(r), status, TransientRuntimeFailure, "", 0);
  }

  lemma AloneIsWellFormed(r: Runtime, retries: nat, failures: nat)
    requires r.tenantId == "tenant"
    ensures WellFormed(Alone(r, retries, failures))
  {
  }

  /** At its duration an unhealthy runtime times out. */
  lemma RecoverTurns(identify: Identify, limit: nat, r: Runtime, retries: nat)
    requires IsOurs(r, limit) && r.status == Unhealthy
    ensures var t := Alone(TimedOut(r, 1), retries, 2).(recoveryTotal := 1);
      Turns(Alone(r, retries, 1), t, identify, Recovery(None), 1)
  {
    var s := Alone(r, retries, 1);
    assert Recoverable(s, s.runtimes.Keys, None, 1) == {KeyOf(r)};
    assert Outcomes(s, s.runtimes.Keys, None, 1, true) == {};
    assert Outcomes(s, s.runtimes.Keys, None, 1, false) == {KeyOf(r)};
  }

  // ---------- The run ----------

  /** A trace of the runtime so far: the stores, the calls between them, and the runtime in each. */
  datatype Trace = Trace(states: seq<State>, run: seq<Timed>, history: seq<Runtime>)

  /** The last store of the trace is `s`, where the runtime is `r` after so many changes of status. */
  ghost predicate IsTraceTo(tr: Trace, identify: Identify, s: State, r: Runtime, changes: nat) {
    && IsTrace(tr.states, tr.run, identify) && |tr.history| == |tr.states|
    && (forall m :: 0 <= m < |tr.states| ==>
        KeyOf(r) in tr.states[m].runtimes && tr.history[m] == tr.states[m].runtimes[KeyOf(r)])
    && tr.states[|tr.run|] == s && KeyOf(r) in s.runtimes && s.runtimes[KeyOf(r)] == r
    && StatusChanges(tr.history) == changes
  }

  /** The calls of the trace are made by `now`, in order, and its tokens are those of the attempts so far. */
  ghost predicate IsTimely(run: seq<Timed>, now: int, attempt: nat) {
    && ClockAdvances(run) && (run != [] ==> run[|run| - 1].now <= now)
    && TokensAreFresh(run)
    && forall m :: 0 <= m < |run| && run[m].event.Leasing? ==> run[m].event.token < attempt
  }

  function Extended(tr: Trace, e: Event, now: int, t: State, r: Runtime): Trace {
    Trace(tr.states + [t], tr.run + [Timed(now, e)], tr.history + [r])
  }

  /** One more call, which changes the status. */
  lemma ExtendTrace(
    tr: Trace, identify: Identify, s: State, r: Runtime, changes: nat, e: Event, now: int, t: State, r': Runtime)
    requires KeyOf(r') == KeyOf(r) && KeyOf(r) in t.runtimes && t.runtimes[KeyOf(r)] == r'
    requires r'.status != r.status && !IsSwitch(r.status, r'.status)
    ensures var next := Extended(tr, e, now, t, r');
      IsTraceTo(tr, identify, s, r, changes) && Turns(s, t, identify, e, now) ==>
      IsTraceTo(next, identify, t, r', changes + 1) && tr.states != [] && next.states[0] == tr.states[0]
  {
    hide Apply, WellFormed, Inv;
    var next := Extended(tr, e, now, t, r');
    if IsTraceTo(tr, identify, s, r, changes) && Turns(s, t, identify, e, now) {
      forall m: nat | m < |next.run| ensures IsCall(next.states, next.run, identify, m) {
        if m < |tr.run| {
          assert IsCall(tr.states, tr.run, identify, m);
        }
      }
      assert next.history[..|next.history| - 1] == tr.history;
    }
  }

  /** A call at a later time, whose token if it leases is the number of the attempt. */
  lemma ExtendTimely(run: seq<Timed>, e: Event, before: int, now: int, attempt: nat, attempt': nat)
    requires IsTimely(run, before, attempt) && before <= now && attempt <= attempt'
    requires e.Leasing? ==> e.token == attempt < attempt'
    ensures IsTimely(run + [Timed(now, e)], now, attempt')
  {
  }

  /** One attempt of three calls: lease, resume, and fail for a transient reason. */
  lemma AttemptOnce(tr: Trace, identify: Identify, limit: nat, r: Runtime, changes: nat)
    returns (next: Trace, r': Runtime)
    requires IsOurs(r, limit) && r.status == Ready && r.lease.None? && r.attempt <= limit
    requires IsTraceTo(tr, identify, Alone(r, r.attempt, 0), r, changes) && IsTimely(tr.run, 0, r.attempt)
    ensures IsOurs(r', limit) && KeyOf(r') == KeyOf(r) && r'.attempt == r.attempt + 1 && r'.lease.None?
    ensures r'.status == if r'.attempt <= limit then Ready else Unhealthy
    ensures var retried := r'.status == Ready;
      var s := Alone(r', if retried then r'.attempt else r.attempt, if retried then 0 else 1);
      IsTraceTo(next, identify, s, r', changes + 3)
    ensures IsTimely(next.run, 0, r'.attempt) && next.states != [] && next.states[0] == tr.states[0]
  {
    hide IsTraceTo, IsTimely, Turns;
    var a := r.attempt;
    var leased := Granted(r, "worker", a, 1, 0);
    LeaseTurns(identify, limit, r, a);
    ExtendTrace(tr, identify, Alone(r, a, 0), r, changes, LeaseCall(limit, a), 0, Alone(leased, a, 0), leased);
    ExtendTimely(tr.run, LeaseCall(limit, a), 0, 0, a, a + 1);
    var first := Extended(tr, LeaseCall(limit, a), 0, Alone(leased, a, 0), leased);
    var running := leased.(status := Running, updatedAt := 0);
    ResumeTurns(identify, limit, leased, a, a);
    ExtendTrace(first, identify, Alone(leased, a, 0), leased, changes + 1,
                Resuming(ClaimFor(r, a)), 0, Alone(running, a, 0), running);
    ExtendTimely(first.run, Resuming(ClaimFor(r, a)), 0, 0, a + 1, a + 1);
    var second := Extended(first, Resuming(ClaimFor(r, a)), 0, Alone(running, a, 0), running);
    var status := if a + 1 <= limit then Ready else Unhealthy;
    r' := Diagnosed(running, status, TransientRuntimeFailure, "", 0);
    var failed := Alone(r', if status == Ready then a + 1 else a, if status == Ready then 0 else 1);
    FailTurns(identify, limit, running, a, a);
    ExtendTrace(second, identify, Alone(running, a, 0), running, changes + 2, FailCall(r, limit, a), 0, failed, r');
    ExtendTimely(second.run, FailCall(r, limit, a), 0, 0, a + 1, a + 1);
    next := Extended(second, FailCall(r, limit, a), 0, failed, r');
  }

  /** The store right after the runtime was created. */
  function Start(identify: Identify, limit: nat): State { Alone(Created(identify, limit), 0, 0) }

  function Created(identify: Identify, limit: nat): Runtime {
    NewRuntime("agent", ContextFor(limit), identify(ContextFor(limit), "agent"), 0)
  }

  function CreateCall(limit: nat): Event { Creation("agent", ContextFor(limit), true, QuotasFor(limit)) }

  lemma StartIsReachable(identify: Identify, limit: nat)
    ensures After([Timed(0, CreateCall(limit))], identify) == Start(identify, limit)
    ensures Inv(Start(identify, limit))
  {
    var run := [Timed(0, CreateCall(limit))];
    AfterNext(run, identify, 0);
    assert run[..0] == [] && run[..1] == run;
    assert ActiveRuntimes(EMPTY, "tenant") == {};
    Reachable(run, identify);
  }

  /** As many failed attempts as may be retried. */
  lemma {:induction false} RetriedAttempts(identify: Identify, limit: nat, n: nat) returns (tr: Trace, r: Runtime)
    requires n <= limit
    ensures IsOurs(r, limit) && r.status == Ready && r.lease.None? && r.attempt == n
    ensures KeyOf(r) == KeyOf(Created(identify, limit))
    ensures IsTraceTo(tr, identify, Alone(r, n, 0), r, 3 * n) && IsTimely(tr.run, 0, n)
    ensures tr.states[0] == Start(identify, limit)
  {
    if n == 0 {
      StartIsReachable(identify, limit);
      r := Created(identify, limit);
      tr := Trace([Start(identify, limit)], [], [r]);
    } else {
      hide IsTraceTo, IsTimely, Start;
      var before, r0 := RetriedAttempts(identify, limit, n - 1);
      tr, r := AttemptOnce(before, identify, limit, r0, 3 * (n - 1));
    }
  }

  /** The unhealthy runtime times out. */
  lemma TimeOutLate(tr: Trace, identify: Identify, limit: nat, r: Runtime, changes: nat)
    returns (next: Trace, s: State, late: Runtime)
    requires IsOurs(r, limit) && r.status == Unhealthy
    requires IsTraceTo(tr, identify, Alone(r, limit, 1), r, changes) && IsTimely(tr.run, 0, limit + 1)
    ensures IsTraceTo(next, identify, s, late, changes + 1) && IsTimely(next.run, 1, limit + 1)
    ensures WellFormed(s) && KeyOf(late) == KeyOf(r) && late.status == Failed
    ensures next.states != [] && next.states[0] == tr.states[0]
  {
    hide Turns, IsTraceTo, IsTimely;
    late := TimedOut(r, 1);
    s := Alone(late, limit, 2).(recoveryTotal := 1);
    RecoverTurns(identify, limit, r, limit);
    AloneHolds(late, limit, 2);
    ExtendTrace(tr, identify, Alone(r, limit, 1), r, changes, Recovery(None), 1, s, late);
    ExtendTimely(tr.run, Recovery(None), 0, 1, limit + 1, limit + 1);
    next := Extended(tr, Recovery(None), 1, s, late);
  }

  /** The failed runtime is superseded. */
  lemma SupersedeLast(tr: Trace, identify: Identify, limit: nat, s: State, r: Runtime, changes: nat)
    returns (next: Trace, t: State, r': Runtime)
    requires WellFormed(s) && r.status == Failed
    requires IsTraceTo(tr, identify, s, r, changes) && IsTimely(tr.run, 1, limit + 1)
    ensures IsTraceTo(next, identify, t, r', changes + 1) && IsTimely(next.run, 1, limit + 1)
    ensures KeyOf(r') == KeyOf(r) && next.states != [] && next.states[0] == tr.states[0]
  {
    hide Turns, IsTimely;
    var e := Supersession(KeyOf(r), "next");
    t, r' := SupersedeTurns(identify, s, r);
    ExtendTimely(tr.run, e, 1, 1, limit + 1, limit + 1);
    next := Extended(tr, e, 1, t, r');
    hide IsTraceTo;
    ExtendTrace(tr, identify, s, r, changes, e, 1, t, r');
  }

  /** All retried attempts, the last one, a timeout and a supersession. */
  lemma WholeLife(identify: Identify, limit: nat) returns (tr: Trace, s: State, r: Runtime)
    ensures KeyOf(r) == KeyOf(Created(identify, limit)) && tr.states != [] && tr.states[0] == Start(identify, limit)
    ensures IsTraceTo(tr, identify, s, r, 3 * limit + 5) && IsTimely(tr.run, 1, limit + 1)
  {
    var retried, ready := RetriedAttempts(identify, limit, limit);
    hide IsTimely, IsTraceTo, Start, IsOurs;
    var third, unhealthy := AttemptOnce(retried, identify, limit, ready, 3 * limit);
    var fourth, timedOut, late := TimeOutLate(third, identify, limit, unhealthy, 3 * limit + 3);
    tr, s, r := SupersedeLast(fourth, identify, limit, timedOut, late, 3 * limit + 4);
    TraceIsNotEmpty(tr, identify, s, r, 3 * limit + 5);
  }

  lemma TraceIsNotEmpty(tr: Trace, identify: Identify, s: State, r: Runtime, changes: nat)
    requires IsTraceTo(tr, identify, s, r, changes)
    ensures tr.states != [] && tr.history != []
  {
  }

  lemma AloneHolds(r: Runtime, retries: nat, failures: nat)
    requires r.tenantId == "tenant"
    ensures var s := Alone(r, retries, failures).(recoveryTotal := 1);
      WellFormed(s) && KeyOf(r) in s.runtimes && s.runtimes[KeyOf(r)] == r
  {
  }

  /**
   For every retry limit there is a run, with an advancing clock and fresh
   tokens, in which a runtime changes status exactly `3 * limit + 5` times: every
   retried attempt takes three changes, the last one three, and then the
   unhealthy runtime times out and is superseded.
   */
  lemma LongestRun(identify: Identify, limit: nat) returns (tr: Trace)
    ensures tr.states != [] && tr.history != []
    ensures tr.states[0] == After([Timed(0, CreateCall(limit))], identify)
    ensures IsTrace(tr.states, tr.run, identify) && |tr.history| == |tr.states|
    ensures var k := KeyOf(Created(identify, limit));
      forall m :: 0 <= m < |tr.states| ==> k in tr.states[m].runtimes && tr.history[m] == tr.states[m].runtimes[k]
    ensures ClockAdvances(tr.run) && TokensAreFresh(tr.run)
    ensures RetryLimit(tr.history[0]) == limit && StatusChanges(tr.history) == 3 * limit + 5
  {
    hide StatusChanges, Inv, After;
    var s, r;
    tr, s, r := WholeLife(identify, limit);
    StartIsReachable(identify, limit);
    assert tr.history[0] == Created(identify, limit);
  }

  lemma SupersedeTurns(identify: Identify, s: State, late: Runtime) returns (t: State, r: Runtime)
    requires WellFormed(s) && KeyOf(late) in s.runtimes && s.runtimes[KeyOf(late)] == late
    ensures Turns(s, t, identify, Supersession(KeyOf(late), "next"), 1)
    ensures KeyOf(r) == KeyOf(late) && r.status == Cancelled
    ensures KeyOf(late) in t.runtimes && t.runtimes[KeyOf(late)] == r
  {
    t := Apply(s, identify, Supersession(KeyOf(late), "next"), 1);
    r := t.runtimes[KeyOf(late)];
  }
}
