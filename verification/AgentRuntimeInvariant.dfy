/** What every reachable store keeps: attempts, leases and outputs agree with the status. */
module AgentRuntimeInvariant {
  import opened Wrappers
  import opened AgentRuntimeTypes
  import opened AgentRuntimeSpec
  import opened AgentRuntimeRuns

  /** The diagnostics that put a runtime back to ready (`retryable`), or the others. */
  function Tally(diagnostics: seq<Diagnostic>, retryable: bool): (n: nat)
    ensures n <= |diagnostics|
  {
    if diagnostics == [] then 0
    else
      var last := |diagnostics| - 1;
      Tally(diagnostics[..last], retryable) + if diagnostics[last].retryable == retryable then 1 else 0
  }

  lemma TallyAppend(diagnostics: seq<Diagnostic>, d: Diagnostic, retryable: bool)
    ensures Tally(diagnostics + [d], retryable)
         == Tally(diagnostics, retryable) + if d.retryable == retryable then 1 else 0
  {
    assert (diagnostics + [d])[..|diagnostics|] == diagnostics;
  }

  function RetryLimit(r: Runtime): nat { Max(0, r.context.limits.retries) }

  /** Attempts: one per retryable diagnostic, and one more from the moment a lease is granted. */
  predicate AttemptsAccounted(r: Runtime) {
    var retries := Tally(r.diagnostics, true);
    && retries <= r.attempt <= retries + 1
    && r.attempt <= RetryLimit(r) + 1
    && (r.status == Ready ==> r.attempt == retries && r.attempt <= RetryLimit(r))
    && (r.status.Held() || r.status in {Completed, Unhealthy} ==> r.attempt == retries + 1)
  }

  /** A runtime has a lease, and a worker, exactly while it is held. */
  predicate LeaseAgrees(r: Runtime) {
    && (r.lease.Some? <==> r.status.Held())
    && (r.lease.Some? ==> r.workerId == Some(r.lease.value.workerId) && r.lease.value.attempt == r.attempt)
    && (r.lease.None? ==> r.workerId.None?)
    && (r.startedAt.Some? <==> r.attempt > 0)
    && (r.completedAt.Some? <==> r.status.Terminal() || r.status == Unhealthy)
    && (r.supersededBy.Some? ==> r.status == Cancelled)
  }

  /**
   At most one output is ever published, exactly by completing; it is orphaned
   exactly when the completed runtime is superseded.
   */
  predicate OutputsAgree(r: Runtime, outs: seq<Output>) {
    && |outs| == r.outputVersion <= 1
    && (r.status == Completed <==> |outs| == 1 && outs[0].published)
    && (|outs| == 1 ==> outs[0].outputVersion == 1 && outs[0].orphaned == !outs[0].published)
    && (|outs| == 1 && outs[0].orphaned ==> r.status == Cancelled && r.supersededBy.Some?)
  }

  predicate RuntimeInv(r: Runtime, outs: seq<Output>) {
    AttemptsAccounted(r) && LeaseAgrees(r) && OutputsAgree(r, outs)
  }

  ghost predicate Inv(s: State) {
    WellFormed(s) && forall k :: k in s.runtimes ==> RuntimeInv(s.runtimes[k], s.OutputsOf(k))
  }

  // ---------- One runtime ----------

  /** The only changes of status. */
  predicate StatusEdge(a: Status, b: Status) {
    || a == b
    || (a == Ready && b in {Leased, Failed, Cancelled})
    || (a.Held() && b in {Running, Waiting, Completed, Ready, Unhealthy, Failed, Cancelled})
    || (a == Unhealthy && b in {Failed, Cancelled})
    || (a.Terminal() && b == Cancelled)
  }

  /** Every step on a runtime follows an edge; an attempt starts exactly with a lease. */
  lemma ActFollowsEdge(r: Runtime, r': Runtime, e: Event, now: int)
    requires LeaseAgrees(r) && Acts(r, r', e, now)
    ensures StatusEdge(r.status, r'.status) && r'.context == r.context
    ensures r'.attempt == r.attempt + if r.status == Ready && r'.status == Leased then 1 else 0
  {
  }

  predicate GoesBack(r: Runtime, r': Runtime) { r.status != Ready && r'.status == Ready }

  /** At most one diagnostic is appended, a retryable one exactly when the runtime goes back to ready. */
  lemma ActDiagnoses(r: Runtime, r': Runtime, e: Event, now: int)
    requires LeaseAgrees(r) && Acts(r, r', e, now) && r'.diagnostics != r.diagnostics
    ensures |r'.diagnostics| == |r.diagnostics| + 1
    ensures var d := r'.diagnostics[|r.diagnostics|];
      r'.diagnostics == r.diagnostics + [d] && (d.retryable <==> GoesBack(r, r'))
  {
  }

  lemma ActRetries(r: Runtime, r': Runtime, e: Event, now: int)
    requires LeaseAgrees(r) && Acts(r, r', e, now) && GoesBack(r, r')
    ensures r'.diagnostics != r.diagnostics && r.attempt <= r.context.limits.retries
  {
    assert |r'.diagnostics| == |r.diagnostics| + 1;
  }

  lemma ActKeepsAttempts(r: Runtime, r': Runtime, e: Event, now: int)
    requires AttemptsAccounted(r) && LeaseAgrees(r) && Acts(r, r', e, now)
    ensures AttemptsAccounted(r')
  {
    hide Acts, LeaseAgrees, Tally;
    ActFollowsEdge(r, r', e, now);
    if GoesBack(r, r') {
      ActRetries(r, r', e, now);
    }
    if r'.diagnostics != r.diagnostics {
      ActDiagnoses(r, r', e, now);
      TallyAppend(r.diagnostics, r'.diagnostics[|r.diagnostics|], true);
    }
    assert RetryLimit(r') == RetryLimit(r);
  }

  lemma ActKeepsLease(r: Runtime, r': Runtime, e: Event, now: int)
    requires LeaseAgrees(r) && Acts(r, r', e, now)
    ensures LeaseAgrees(r')
  {
  }

  /** The outputs of a runtime after a call acted on it. */
  function OutputsAfter(r: Runtime, outs: seq<Output>, e: Event, now: int): seq<Output> {
    match e
    case Publication(_, payload, _, _, _) => outs + [NewOutput(r, payload, now)]
    case Supersession(_, _) => Orphaned(outs)
    case _ => outs
  }

  lemma ActKeepsOutputs(r: Runtime, r': Runtime, outs: seq<Output>, e: Event, now: int)
    requires LeaseAgrees(r) && OutputsAgree(r, outs) && Acts(r, r', e, now)
    ensures OutputsAgree(r', OutputsAfter(r, outs, e, now))
  {
  }

  // ---------- Outputs of the whole store ----------

  /** A runtime that is not terminal has no outputs: recovery never touches an output of a reachable store. */
  lemma NothingToWithdraw(s: State, done: set<Key>)
    requires Inv(s)
    ensures WithdrawOutputs(s, done) == s.outputs
  {
    var outputs := WithdrawOutputs(s, done);
    forall k | k in s.outputs ensures outputs[k] == s.outputs[k] {
      NothingWithdrawnAt(s, done, k);
    }
    hide WithdrawOutputs, Inv;
  }

  lemma NothingWithdrawnAt(s: State, done: set<Key>, k: Key)
    requires Inv(s) && k in s.outputs
    ensures WithdrawOutputs(s, done)[k] == s.outputs[k]
  {
    if !s.runtimes[k].status.Terminal() {
      ActiveHasNoOutput(s, k);
    }
  }

  lemma ActiveHasNoOutput(s: State, k: Key)
    requires Inv(s) && k in s.runtimes && !s.runtimes[k].status.Terminal()
    ensures s.OutputsOf(k) == []
  {
    assert RuntimeInv(s.runtimes[k], s.OutputsOf(k));
  }

  lemma PublishOutputs(s: State, c: Claim, payload: string, wellFormed: bool, bytes: nat, quotas: Quotas, now: int)
    requires WellFormed(s)
    ensures var t, k := Publish(s, c, payload, wellFormed, bytes, quotas, now).0, c.Target();
      t == s ||
      (k in s.runtimes && t.runtimes == s.runtimes[k := Published(s.runtimes[k], now)] &&
       t.outputs == s.outputs[k := s.OutputsOf(k) + [NewOutput(s.runtimes[k], payload, now)]])
  {
  }

  lemma SupersedeOutputs(s: State, k: Key, successor: string, now: int)
    requires WellFormed(s) && k in s.runtimes
    ensures var t := Supersede(s, k, successor, now).0;
      t.outputs == s.outputs[k := Orphaned(s.OutputsOf(k))] && t.runtimes == s.runtimes[k := t.runtimes[k]] &&
      Acts(s.runtimes[k], t.runtimes[k], Supersession(k, successor), now)
  {
  }

  lemma CallKeepsOutputs(s: State, identify: Identify, e: Event, now: int)
    requires WellFormed(s) && !e.Publication? && !e.Supersession? && !e.Recovery? && !e.Collection?
    ensures Apply(s, identify, e, now).outputs == s.outputs
  {
    hide WellFormed;
  }

  // ---------- Every call keeps the invariant ----------

  /** The runtime was not touched, or one step acted on it and on its outputs. */
  ghost predicate Follows(s: State, t: State, e: Event, now: int, k: Key)
    requires k in s.runtimes && k in t.runtimes
  {
    || (t.runtimes[k] == s.runtimes[k] && t.OutputsOf(k) == s.OutputsOf(k))
    || (Acts(s.runtimes[k], t.runtimes[k], e, now) &&
        t.OutputsOf(k) == OutputsAfter(s.runtimes[k], s.OutputsOf(k), e, now))
  }

  lemma FollowsKeepsInv(s: State, t: State, e: Event, now: int, k: Key)
    requires k in s.runtimes && k in t.runtimes && Follows(s, t, e, now, k)
    requires RuntimeInv(s.runtimes[k], s.OutputsOf(k))
    ensures RuntimeInv(t.runtimes[k], t.OutputsOf(k))
  {
    var r, r' := s.runtimes[k], t.runtimes[k];
    if r' != r || t.OutputsOf(k) != s.OutputsOf(k) {
      ActKeepsAttempts(r, r', e, now);
      ActKeepsLease(r, r', e, now);
      ActKeepsOutputs(r, r', s.OutputsOf(k), e, now);
    }
  }

  lemma PublicationFollows(s: State, identify: Identify, e: Event, now: int, k: Key)
    requires WellFormed(s) && e.Publication? && k in s.runtimes
    ensures k in Apply(s, identify, e, now).runtimes && Follows(s, Apply(s, identify, e, now), e, now, k)
  {
    PublishOutputs(s, e.claim, e.payload, e.wellFormed, e.bytes, e.quotas, now);
    EndedEntryAfter(s, identify, e, now, k);
  }

  lemma SupersessionFollows(s: State, identify: Identify, e: Event, now: int, k: Key)
    requires WellFormed(s) && e.Supersession? && k in s.runtimes
    ensures k in Apply(s, identify, e, now).runtimes && Follows(s, Apply(s, identify, e, now), e, now, k)
  {
    if e.key in s.runtimes {
      SupersedeOutputs(s, e.key, e.successor, now);
    }
  }

  lemma RecoveryFollows(s: State, t: State, quotas: Option<Quotas>, now: int, k: Key)
    requires k in s.runtimes && k in t.runtimes && t.outputs == s.outputs
    requires t.runtimes[k] == Recovered(s.runtimes[k], quotas, now)
    ensures Follows(s, t, Recovery(quotas), now, k)
  {
    assert Acts(s.runtimes[k], t.runtimes[k], Recovery(quotas), now);
  }

  lemma RecoverFollows(s: State, e: Event, identify: Identify, now: int, k: Key)
    requires Inv(s) && e.Recovery? && k in s.runtimes
    ensures k in Apply(s, identify, e, now).runtimes && Follows(s, Apply(s, identify, e, now), e, now, k)
  {
    assert WellFormed(s);
    ApplyRecovery(s, identify, e, now);
    hide Inv, Apply, Recover, Recovered, WithdrawOutputs, Follows, WellFormed;
    NothingToWithdraw(s, s.runtimes.Keys);
    RecoverAt(s, e.scope, now, k);
    RecoveryFollows(s, Recover(s, e.scope, now).0, e.scope, now, k);
  }

  lemma ApplyRecovery(s: State, identify: Identify, e: Event, now: int)
    requires WellFormed(s) && e.Recovery?
    ensures Apply(s, identify, e, now) == Recover(s, e.scope, now).0
  {
    hide WellFormed, Recover;
  }

  lemma RecoverAt(s: State, quotas: Option<Quotas>, now: int, k: Key)
    requires WellFormed(s) && k in s.runtimes
    ensures var t := Recover(s, quotas, now).0;
      && k in t.runtimes && t.runtimes[k] == Recovered(s.runtimes[k], quotas, now)
      && t.outputs == WithdrawOutputs(s, s.runtimes.Keys)
  {
    hide WellFormed, Recovered, WithdrawOutputs;
  }

  /** Calls that leave all outputs alone. */
  lemma RestFollows(s: State, e: Event, identify: Identify, now: int, k: Key)
    requires WellFormed(s) && !e.Publication? && !e.Supersession? && !e.Recovery? && !e.Collection?
    requires k in s.runtimes && k in Apply(s, identify, e, now).runtimes
    ensures Follows(s, Apply(s, identify, e, now), e, now, k)
  {
    EntryAfter(s, identify, e, now, k);
    CallKeepsOutputs(s, identify, e, now);
    hide Apply, Acts, WellFormed;
  }

  lemma CallFollows(s: State, identify: Identify, e: Event, now: int, k: Key)
    requires Inv(s) && k in s.runtimes && k in Apply(s, identify, e, now).runtimes
    ensures Follows(s, Apply(s, identify, e, now), e, now, k)
  {
    hide Apply, Follows, WellFormed;
    if e.Publication? {
      PublicationFollows(s, identify, e, now, k);
    } else if e.Supersession? {
      SupersessionFollows(s, identify, e, now, k);
    } else if e.Collection? {
      CollectionFollows(s, e, identify, now, k);
    } else if e.Recovery? {
      RecoverFollows(s, e, identify, now, k);
    } else {
      RestFollows(s, e, identify, now, k);
    }
  }

  lemma CollectionFollows(s: State, e: Event, identify: Identify, now: int, k: Key)
    requires WellFormed(s) && e.Collection? && k in s.runtimes && k in Apply(s, identify, e, now).runtimes
    ensures Follows(s, Apply(s, identify, e, now), e, now, k)
  {
  }

  lemma RecoverKeepsInv(s: State, quotas: Option<Quotas>, now: int)
    requires Inv(s)
    ensures Inv(Recover(s, quotas, now).0)
  {
    var t := Recover(s, quotas, now).0;
    NothingToWithdraw(s, s.runtimes.Keys);
    forall k | k in t.runtimes ensures RuntimeInv(t.runtimes[k], t.OutputsOf(k)) {
      assert RuntimeInv(s.runtimes[k], s.OutputsOf(k));
      RecoveryFollows(s, t, quotas, now, k);
      FollowsKeepsInv(s, t, Recovery(quotas), now, k);
    }
  }

  lemma CallKeepsInv(s: State, identify: Identify, e: Event, now: int)
    requires Inv(s)
    ensures Inv(Apply(s, identify, e, now))
  {
    var t := Apply(s, identify, e, now);
    forall k | k in t.runtimes ensures RuntimeInv(t.runtimes[k], t.OutputsOf(k)) {
      if k in s.runtimes {
        assert RuntimeInv(s.runtimes[k], s.OutputsOf(k));
        CallFollows(s, identify, e, now, k);
        FollowsKeepsInv(s, t, e, now, k);
      } else {
        EntryAfter(s, identify, e, now, k);
        CallKeepsOutputs(s, identify, e, now);
      }
    }
  }

  /** The invariant holds after any calls, with any quotas and any clock. */
  lemma {:induction false} Reachable(run: seq<Timed>, identify: Identify)
    ensures Inv(After(run, identify))
  {
    if run != [] {
      var last := |run| - 1;
      Reachable(run[..last], identify);
      CallKeepsInv(After(run[..last], identify), identify, run[last].event, run[last].now);
    }
  }
}
