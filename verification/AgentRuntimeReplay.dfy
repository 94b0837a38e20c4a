/** The store object carries out any run of calls and ends as the specification says. */
module AgentRuntimeReplay {
  import opened AgentRuntimeTypes
  import opened AgentRuntimeSpec
  import opened AgentRuntimeRuns
  import opened AgentRuntimeStore

  /** Calls the store's method for an event. */
  method Perform(store: MemoryAgentRuntimeStore, e: Event, now: int)
    requires store.Valid()
    modifies store, store.runtimes.Values
    ensures store.Valid() && fresh(store.runtimes.Values - old(store.runtimes.Values))
    ensures store.Model() == Apply(old(store.Model()), store.identify, e, now)
  {
    hide WellFormed, Create, LeaseNext, SendHeartbeat, Transition, Publish, Fail, Cancel, Supersede, Recover, Collect;
    match e
    case Creation(agentId, context, admitted, quotas) =>
      var _ := store.Create(agentId, context, admitted, quotas, now);
    case Leasing(tenantId, workerId, leaseMs, quotas, token) =>
      var _ := store.LeaseNext(tenantId, workerId, leaseMs, quotas, token, now);
    case Beating(claim, leaseMs) =>
      var _ := store.SendHeartbeat(claim, leaseMs, now);
    case Resuming(claim) =>
      var _ := store.Transition(claim, Running, now);
    case Pausing(claim) =>
      var _ := store.Transition(claim, Waiting, now);
    case Publication(claim, payload, wellFormed, bytes, quotas) =>
      var _ := store.Publish(claim, payload, wellFormed, bytes, quotas, now);
    case Failure(claim, code, message, quotas) =>
      var _ := store.Fail(claim, code, message, quotas, now);
    case Cancellation(key) =>
      var _ := store.Cancel(key, now);
    case Supersession(key, successor) =>
      var _ := store.Supersede(key, successor, now);
    case Recovery(scope) =>
      var _ := store.Recover(scope, now);
    case Collection(tenantId, retention) =>
      var _ := store.Collect(tenantId, retention);
  }

  /** A new store on which the calls of a run are made one after the other. */
  method Replay(run: seq<Timed>, identify: Identify) returns (store: MemoryAgentRuntimeStore)
    ensures fresh(store) && store.Valid() && fresh(store.runtimes.Values)
    ensures store.identify == identify && store.Model() == After(run, identify)
  {
    hide WellFormed, Apply;
    store := new MemoryAgentRuntimeStore(identify);
    for i := 0 to |run|
      invariant fresh(store) && store.Valid() && fresh(store.runtimes.Values)
      invariant store.identify == identify && store.Model() == After(run[..i], identify)
    {
      AfterNext(run, identify, i);
      Perform(store, run[i].event, run[i].now);
    }
    assert run[..|run|] == run;
  }
}
