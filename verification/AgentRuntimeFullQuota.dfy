/** Quotas are given out in full: a run in which a tenant comes to hold as many leases as its quota allows. */
module AgentRuntimeFullQuota {
  import opened Wrappers
  import opened AgentRuntimeTypes
  import opened AgentRuntimeSpec
  import opened AgentRuntimeRuns
  import opened AgentRuntimeOutcomes

  /** Quotas for `n` runtimes and leases. */
  function QuotaOf(n: nat): Quotas { Quotas(n, n, n, 1, 0, 1) }

  /** The `i`-th context; contexts differ in their artifacts. */
  function ContextNo(i: nat): Context { Context("tenant", "v1", "w1", Limits(1, 0), Digits(i)) }

  function Digits(i: nat): string { seq(i, j => '1') }

  function KeyNo(identify: Identify, i: nat): Key { Key("tenant", identify(ContextNo(i), "agent")) }

  /** The contexts up to `n` are told apart. */
  ghost predicate Distinguishes(identify: Identify, n: nat) {
    forall i: nat, j: nat :: i < j < n ==> KeyNo(identify, i) != KeyNo(identify, j)
  }

  function Calls(n: nat, i: nat): seq<Timed> {
    [Timed(0, Creation("agent", ContextNo(i), true, QuotaOf(n))),
     Timed(0, Leasing("tenant", "worker", 1, QuotaOf(n), i))]
  }

  /** Creates and leases `i` runtimes, one after the other, all at the same time. */
  function LeasingRun(n: nat, i: nat): seq<Timed> { if i == 0 then [] else LeasingRun(n, i - 1) + Calls(n, i - 1) }

  ghost function Keys(identify: Identify, i: nat): set<Key> { set j: nat | j < i :: KeyNo(identify, j) }

  lemma {:induction false} KeysSize(identify: Identify, n: nat, i: nat)
    requires Distinguishes(identify, n) && i <= n
    ensures |Keys(identify, i)| == i
  {
    if i > 0 {
      KeysSize(identify, n, i - 1);
      assert Keys(identify, i) == Keys(identify, i - 1) + {KeyNo(identify, i - 1)};
    }
  }

  predicate IsHeld(r: Runtime) { r.status == Leased && r.lease.Some? && r.lease.value.expiresAt == 1 }

  /** The store holds the first `i` runtimes, all of them leased until time 1. */
  ghost predicate AllLeased(s: State, identify: Identify, i: nat) {
    && WellFormed(s) && s.runtimes.Keys == Keys(identify, i)
    && forall k :: k in s.runtimes ==> IsHeld(s.runtimes[k])
  }

  lemma TenantIsLeased(s: State, identify: Identify, i: nat)
    requires AllLeased(s, identify, i)
    ensures LeasedNow(s, "tenant", 0) == NotOver(s, "tenant") == Keys(identify, i)
  {
  }

  /** The `i`-th runtime was made and waits, the others are leased. */
  ghost predicate OneReady(s: State, identify: Identify, i: nat) {
    var k := KeyNo(identify, i);
    && WellFormed(s) && s.runtimes.Keys == Keys(identify, i) + {k} && k !in Keys(identify, i)
    && s.runtimes[k].createdAt == 0 && s.runtimes[k].context == ContextNo(i)
    && ReadyNow(s, "tenant") == {k} && LeasedNow(s, "tenant", 0) == Keys(identify, i)
    && forall other :: other in Keys(identify, i) ==> IsHeld(s.runtimes[other])
  }

  lemma NextIsNew(identify: Identify, n: nat, i: nat)
    requires Distinguishes(identify, n) && i < n
    ensures KeyNo(identify, i) !in Keys(identify, i)
    ensures Keys(identify, i + 1) == Keys(identify, i) + {KeyNo(identify, i)}
  {
  }

  /** Adding a runtime that waits to leased ones. */
  lemma AddReady(s: State, t: State, identify: Identify, i: nat, r: Runtime)
    requires AllLeased(s, identify, i) && KeyNo(identify, i) !in Keys(identify, i) && WellFormed(t)
    requires t.runtimes == s.runtimes[KeyNo(identify, i) := r]
    requires r.status == Ready && r.supersededBy == None && r.lease == None
    requires r.createdAt == 0 && r.context == ContextNo(i)
    ensures OneReady(t, identify, i)
  {
    var k := KeyNo(identify, i);
    hide Keys, KeyNo;
    assert t.runtimes[k].tenantId == "tenant" by { TenantOf(t, identify, i); }
    TenantIsLeased(s, identify, i);
    assert LeasedNow(t, "tenant", 0) == LeasedNow(s, "tenant", 0);
    assert ReadyNow(t, "tenant") == {k};
  }

  lemma TenantOf(t: State, identify: Identify, i: nat)
    requires WellFormed(t) && KeyNo(identify, i) in t.runtimes
    ensures t.runtimes[KeyNo(identify, i)].tenantId == "tenant"
  {
  }

  /** The next runtime is made, and is the only one that waits. */
  lemma CreatesNext(s: State, identify: Identify, n: nat, i: nat)
    requires AllLeased(s, identify, i) && i < n && Distinguishes(identify, n)
    ensures OneReady(Create(s, identify, "agent", ContextNo(i), true, QuotaOf(n), 0).0, identify, i)
  {
    TenantIsLeased(s, identify, i);
    KeysSize(identify, n, i);
    NextIsNew(identify, n, i);
    CreateOutcome(s, identify, "agent", ContextNo(i), true, QuotaOf(n), 0);
    var t := Create(s, identify, "agent", ContextNo(i), true, QuotaOf(n), 0).0;
    hide Create, WellFormed, Keys, IsHeld, LeasedNow, NotOver, OneReady, Distinguishes;
    AddReady(s, t, identify, i, t.runtimes[KeyNo(identify, i)]);
  }

  /** Leasing the one that waits. */
  lemma AddLeased(s: State, t: State, identify: Identify, n: nat, i: nat)
    requires OneReady(s, identify, i) && i < n && Distinguishes(identify, n) && WellFormed(t)
    requires OnlyChanges(s, t, KeyNo(identify, i)) && IsHeld(t.runtimes[KeyNo(identify, i)])
    ensures AllLeased(t, identify, i + 1)
  {
    NextIsNew(identify, n, i);
    hide Keys, KeyNo, WellFormed, ReadyNow, LeasedNow, IsHeld, Distinguishes;
  }

  /** And it is leased. */
  lemma LeasesNext(s: State, identify: Identify, n: nat, i: nat)
    requires OneReady(s, identify, i) && i < n && Distinguishes(identify, n)
    ensures AllLeased(LeaseNext(s, "tenant", "worker", 1, QuotaOf(n), i, 0).0, identify, i + 1)
  {
    var k := KeyNo(identify, i);
    KeysSize(identify, n, i);
    assert k in s.runtimes && ReadyNow(s, "tenant") == {k};
    hide WellFormed, LeaseNext, ReadyNow, LeasedNow, Keys, Distinguishes, OnlyChanges, AllLeased;
    assert IsFirst(s, ReadyNow(s, "tenant"), k);
    hide IsFirst, KeyNo;
    LeaseOutcome(s, "tenant", "worker", 1, QuotaOf(n), i, 0, k);
    var t := LeaseNext(s, "tenant", "worker", 1, QuotaOf(n), i, 0).0;
    AddLeased(s, t, identify, n, i);
  }

  lemma BothCalls(s: State, identify: Identify, n: nat, i: nat)
    requires AllLeased(s, identify, i) && i < n && Distinguishes(identify, n)
    ensures var t := Apply(s, identify, Calls(n, i)[0].event, 0);
      AllLeased(Apply(t, identify, Calls(n, i)[1].event, 0), identify, i + 1)
  {
    hide AllLeased, OneReady, Create, LeaseNext;
    assert WellFormed(s) by { LeasedIsWellFormed(s, identify, i); }
    hide WellFormed;
    CreatesNext(s, identify, n, i);
    LeasesNext(Create(s, identify, "agent", ContextNo(i), true, QuotaOf(n), 0).0, identify, n, i);
  }

  lemma LeasedIsWellFormed(s: State, identify: Identify, i: nat)
    requires AllLeased(s, identify, i)
    ensures WellFormed(s)
  {
  }

  lemma AfterCalls(run: seq<Timed>, identify: Identify, n: nat, i: nat)
    ensures After(run + Calls(n, i), identify) ==
            Apply(Apply(After(run, identify), identify, Calls(n, i)[0].event, 0), identify, Calls(n, i)[1].event, 0)
  {
    hide Apply;
    var more := run + Calls(n, i);
    assert more[..|more| - 1] == run + [Calls(n, i)[0]];
    assert (run + [Calls(n, i)[0]])[..|run|] == run;
  }

  lemma {:induction false} AfterLeasing(identify: Identify, n: nat, i: nat)
    requires i <= n && Distinguishes(identify, n)
    ensures AllLeased(After(LeasingRun(n, i), identify), identify, i)
  {
    hide Apply, AllLeased, After, Calls;
    if i == 0 {
      NothingLeased(identify);
    } else {
      AfterLeasing(identify, n, i - 1);
      AfterCalls(LeasingRun(n, i - 1), identify, n, i - 1);
      BothCalls(After(LeasingRun(n, i - 1), identify), identify, n, i - 1);
    }
  }

  lemma NothingLeased(identify: Identify)
    ensures AllLeased(After([], identify), identify, 0)
  {
  }

  lemma {:induction false} LeasingRunIsTimely(n: nat, i: nat)
    ensures var run := LeasingRun(n, i);
      && ClockAdvances(run) && TokensAreFresh(run)
      && forall m :: 0 <= m < |run| ==> run[m].now == 0 && (run[m].event.Leasing? ==> run[m].event.token < i)
  {
    if i > 0 {
      LeasingRunIsTimely(n, i - 1);
    }
  }

  /**
   For every `n` there is a run from the empty store, with an advancing clock and
   fresh tokens, after which a tenant whose quotas are `n` holds `n` unexpired leases.
   */
  lemma QuotaIsReached(identify: Identify, n: nat)
    requires Distinguishes(identify, n)
    ensures var run := LeasingRun(n, n);
      && ClockAdvances(run) && TokensAreFresh(run)
      && |LeasedNow(After(run, identify), "tenant", 0)| == n && |NotOver(After(run, identify), "tenant")| == n
  {
    AfterLeasing(identify, n, n);
    LeasingRunIsTimely(n, n);
    TenantIsLeased(After(LeasingRun(n, n), identify), identify, n);
    KeysSize(identify, n, n);
  }
}
