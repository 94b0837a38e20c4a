/** Recovery clears what has run out and settles at once; collection keeps the newest terminal runtimes. */
module AgentRuntimeRecovery {
  import opened Wrappers
  import opened AgentRuntimeTypes
  import opened AgentRuntimeSpec
  import opened AgentRuntimeInvariant

  // ---------- Recovery ----------

  /** Nothing is left for `recover` to do on this runtime at `now`. */
  predicate Settled(r: Runtime, quotas: Option<Quotas>, now: int) {
    || r.status in {Completed, Failed, Cancelled}
    || (&& now - r.createdAt < r.context.limits.runtimeDurationMs
        && (quotas.Some? ==> now - r.createdAt < quotas.value.runtimeDurationMs)
        && (r.lease.Some? ==> now < r.lease.value.expiresAt))
  }

  lemma RecoveredIsSettled(r: Runtime, quotas: Option<Quotas>, now: int)
    ensures Settled(Recovered(r, quotas, now), quotas, now)
    ensures Settled(r, quotas, now) <==> Recovered(r, quotas, now) == r
  {
  }

  /** After recovery no active runtime is past its duration or holds an expired lease. */
  lemma RecoverSettles(s: State, quotas: Option<Quotas>, now: int)
    requires WellFormed(s)
    ensures var t := Recover(s, quotas, now).0;
      t.runtimes.Keys == s.runtimes.Keys && forall k :: k in t.runtimes ==> Settled(t.runtimes[k], quotas, now)
  {
    var t := Recover(s, quotas, now).0;
    forall k | k in t.runtimes ensures Settled(t.runtimes[k], quotas, now) {
      RecoveredIsSettled(s.runtimes[k], quotas, now);
    }
  }

  /** The runtimes whose status recovery changed. */
  ghost function StatusChanged(s: State, t: State): set<Key> {
    set k | k in s.runtimes && k in t.runtimes && t.runtimes[k].status != s.runtimes[k].status
  }

  lemma RecoveryChangesStatus(s: State, quotas: Option<Quotas>, now: int, k: Key)
    requires Inv(s) && k in s.runtimes
    ensures Recovered(s.runtimes[k], quotas, now).status != s.runtimes[k].status
      <==> Recovered(s.runtimes[k], quotas, now) != s.runtimes[k]
  {
    assert RuntimeInv(s.runtimes[k], s.OutputsOf(k));
  }

  /** In a reachable store the returned count is the number of runtimes whose status changed. */
  lemma RecoverCountsStatusChanges(s: State, quotas: Option<Quotas>, now: int)
    requires Inv(s)
    ensures var (t, n) := Recover(s, quotas, now);
      n == |StatusChanged(s, t)| && t.recoveryTotal == s.recoveryTotal + n
  {
    var t := Recover(s, quotas, now).0;
    forall k | k in s.runtimes
      ensures k in StatusChanged(s, t) <==> k in Recoverable(s, s.runtimes.Keys, quotas, now)
    {
      RecoveryChangesStatus(s, quotas, now, k);
    }
    assert StatusChanged(s, t) == Recoverable(s, s.runtimes.Keys, quotas, now);
  }

  lemma SettledStaysPut(t: State, quotas: Option<Quotas>, now: int)
    requires Inv(t) && forall k :: k in t.runtimes ==> Settled(t.runtimes[k], quotas, now)
    ensures Recover(t, quotas, now) == (t, 0)
  {
    forall k | k in t.runtimes ensures Recovered(t.runtimes[k], quotas, now) == t.runtimes[k] {
      RecoveredIsSettled(t.runtimes[k], quotas, now);
    }
    hide Recovered, Settled, WithdrawOutputs;
    NothingToWithdraw(t, t.runtimes.Keys);
    NothingToRecover(t, quotas, now);
  }

  /** If no runtime changes, and no output is withdrawn, recovery does nothing. */
  lemma NothingToRecover(t: State, quotas: Option<Quotas>, now: int)
    requires WellFormed(t) && forall k :: k in t.runtimes ==> Recovered(t.runtimes[k], quotas, now) == t.runtimes[k]
    requires WithdrawOutputs(t, t.runtimes.Keys) == t.outputs
    ensures Recover(t, quotas, now) == (t, 0)
  {
    hide Recovered, WithdrawOutputs, WellFormed;
    var all := t.runtimes.Keys;
    assert Recoverable(t, all, quotas, now) == {};
    assert Outcomes(t, all, quotas, now, true) == Outcomes(t, all, quotas, now, false) == {};
    assert RecoverOn(t, all, quotas, now).runtimes == t.runtimes;
  }

  /** A second recovery at the same time, under the same quotas, returns 0 and changes nothing at all. */
  lemma RecoverIsIdempotent(s: State, quotas: Option<Quotas>, now: int)
    requires Inv(s)
    ensures var t := Recover(s, quotas, now).0; Recover(t, quotas, now) == (t, 0)
  {
    RecoverKeepsInv(s, quotas, now);
    RecoverSettles(s, quotas, now);
    SettledStaysPut(Recover(s, quotas, now).0, quotas, now);
  }

  // ---------- Retention ----------

  /** The terminal entries of a tenant, by their place in the map. */
  ghost function RetiredPlaces(s: State, tenantId: string): set<nat>
    requires WellFormed(s)
  {
    set i: nat | i < |s.order| && IsRetired(s, tenantId, s.order[i])
  }

  /** The entries of `places` that come before place `j`, newest first. */
  ghost function NewerIn(s: State, places: set<nat>, j: nat): set<nat>
    requires WellFormed(s) && j < |s.order| && forall i :: i in places ==> i < |s.order|
  {
    set i | i in places && NewerAt(s, i, j)
  }

  ghost function Top(s: State, places: set<nat>, n: nat): set<nat>
    requires WellFormed(s) && forall i :: i in places ==> i < |s.order|
  {
    set j | j in places && |NewerIn(s, places, j)| < n
  }

  lemma OldestExists(s: State, places: set<nat>) returns (oldest: nat)
    requires WellFormed(s) && places != {} && forall i :: i in places ==> i < |s.order|
    ensures oldest in places && forall i :: i in places && i != oldest ==> NewerAt(s, i, oldest)
    decreases |places|
  {
    oldest :| oldest in places;
    if places != {oldest} {
      var first := oldest;
      var next := OldestExists(s, places - {oldest});
      oldest := if NewerAt(s, first, next) then next else first;
      forall i | i in places && i != oldest ensures NewerAt(s, i, oldest) {
        assert i == first || i == next || NewerAt(s, i, next);
      }
    }
  }

  /** Of any set of entries, exactly the first `n` have fewer than `n` entries before them. */
  lemma {:induction false} TopSize(s: State, places: set<nat>, n: nat)
    requires WellFormed(s) && forall i :: i in places ==> i < |s.order|
    ensures |Top(s, places, n)| == Min(|places|, n)
    decreases |places|
  {
    if places == {} {
      assert Top(s, places, n) == {};
    } else {
      var oldest := OldestExists(s, places);
      TopSize(s, places - {oldest}, n);
      TopWithOldest(s, places, oldest, n);
    }
  }

  /** The oldest entry comes first only if there is room after all others, and does not matter to them. */
  lemma TopWithOldest(s: State, places: set<nat>, oldest: nat, n: nat)
    requires WellFormed(s) && oldest in places && forall i :: i in places ==> i < |s.order|
    requires forall i :: i in places && i != oldest ==> NewerAt(s, i, oldest)
    ensures Top(s, places, n) == Top(s, places - {oldest}, n) + if |places| <= n then {oldest} else {}
  {
    var rest := places - {oldest};
    assert NewerIn(s, places, oldest) == rest && |rest| == |places| - 1;
    forall j | j in rest ensures NewerIn(s, places, j) == NewerIn(s, rest, j) {
      assert NewerAt(s, j, oldest);
    }
  }

  /** The terminal entries of the tenant that collection keeps. */
  ghost function KeptPlaces(s: State, tenantId: string, retention: int): set<nat>
    requires WellFormed(s)
  {
    set j | j in RetiredPlaces(s, tenantId) && s.order[j] in Collect(s, tenantId, retention).0.runtimes
  }

  lemma KeptIsTop(s: State, tenantId: string, retention: int)
    requires WellFormed(s)
    ensures KeptPlaces(s, tenantId, retention) == Top(s, RetiredPlaces(s, tenantId), Max(1, retention))
  {
    var places := RetiredPlaces(s, tenantId);
    forall j | j in places
      ensures j in KeptPlaces(s, tenantId, retention) <==> j in Top(s, places, Max(1, retention))
    {
      assert NewerIn(s, places, j) == NewerThan(s, tenantId, j);
      KeptUnlessCollected(s, tenantId, retention, j);
    }
  }

  lemma KeptUnlessCollected(s: State, tenantId: string, retention: int, j: nat)
    requires WellFormed(s) && j < |s.order|
    ensures s.order[j] in Collect(s, tenantId, retention).0.runtimes <==> j !in CollectedPlaces(s, tenantId, retention)
  {
    hide CollectedPlaces, Without;
    assert s.order[j] in s.order;
    PlaceOfCollected(s, tenantId, retention, j);
  }

  /** Entries are distinct, so a key is collected exactly with its place. */
  lemma PlaceOfCollected(s: State, tenantId: string, retention: int, j: nat)
    requires WellFormed(s) && j < |s.order|
    ensures s.order[j] in CollectedKeys(s, tenantId, retention) <==> j in CollectedPlaces(s, tenantId, retention)
  {
    hide NewerThan, IsRetired;
  }

  /**
   Of the tenant's runtimes that are over, collection keeps the `max(1, retention)`
   newest, or all if there are fewer; of equally old ones those earlier in the map.
   */
  lemma CollectKeepsNewest(s: State, tenantId: string, retention: int)
    requires WellFormed(s)
    ensures var places, kept := RetiredPlaces(s, tenantId), KeptPlaces(s, tenantId, retention);
      && (forall i: nat :: i in places <==> i < |s.order| && s.order[i].tenantId == tenantId
                                            && s.runtimes[s.order[i]].status in {Completed, Failed, Cancelled})
      && |kept| == Min(|places|, Max(1, retention))
      && forall i, j :: i in kept && j in places - kept ==>
           var a, b := s.runtimes[s.order[i]].createdAt, s.runtimes[s.order[j]].createdAt;
           a > b || (a == b && i < j)
  {
    hide RetiredPlaces, KeptPlaces, Top, NewerAt, WellFormed;
    var places, n := RetiredPlaces(s, tenantId), Max(1, retention);
    RetiredAreOver(s, tenantId);
    KeptIsTop(s, tenantId, retention);
    TopSize(s, places, n);
    TopIsPart(s, places, n);
    forall i, j | i in Top(s, places, n) && j in places - Top(s, places, n)
      ensures var a, b := s.runtimes[s.order[i]].createdAt, s.runtimes[s.order[j]].createdAt; a > b || (a == b && i < j)
    {
      TopIsNewer(s, places, n, i, j);
      NewerMeans(s, i, j);
    }
  }

  lemma TopIsPart(s: State, places: set<nat>, n: nat)
    requires WellFormed(s) && forall i :: i in places ==> i < |s.order|
    ensures Top(s, places, n) <= places
  {
  }

  lemma RetiredAreOver(s: State, tenantId: string)
    requires WellFormed(s)
    ensures forall i: nat :: i < |s.order| ==> s.order[i] in s.runtimes
    ensures forall i: nat :: i in RetiredPlaces(s, tenantId) <==>
      i < |s.order| && s.order[i].tenantId == tenantId
      && s.runtimes[s.order[i]].status in {Completed, Failed, Cancelled}
  {
    assert forall i: nat :: i < |s.order| ==> s.order[i] in s.order;
  }

  lemma NewerMeans(s: State, i: nat, j: nat)
    requires i < |s.order| && j < |s.order| && s.order[i] in s.runtimes && s.order[j] in s.runtimes
    ensures NewerAt(s, i, j) <==>
            var a, b := s.runtimes[s.order[i]].createdAt, s.runtimes[s.order[j]].createdAt; a > b || (a == b && i < j)
  {
  }

  /** Collection deletes nothing but terminal runtimes of the tenant, and changes no other. */
  lemma CollectOnlyRetired(s: State, tenantId: string, retention: int, k: Key)
    requires WellFormed(s) && k in s.runtimes
    ensures var t := Collect(s, tenantId, retention).0;
      if k in t.runtimes then t.runtimes[k] == s.runtimes[k] else IsRetired(s, tenantId, k)
  {
  }

  /** Collection returns the number of runtimes it deleted. */
  lemma CollectCounts(s: State, tenantId: string, retention: int)
    requires WellFormed(s)
    ensures var (t, removed) := Collect(s, tenantId, retention); |s.runtimes| == |t.runtimes| + removed
  {
    RemovalSize(s.runtimes, CollectedKeys(s, tenantId, retention));
  }

  lemma RemovalSize<K, V>(m: map<K, V>, gone: set<K>)
    requires gone <= m.Keys
    ensures |m| == |m - gone| + |gone|
  {
    assert m.Keys == (m - gone).Keys + gone;
    assert |m.Keys| == |(m - gone).Keys| + |gone|;
  }

  lemma TopIsNewer(s: State, places: set<nat>, n: nat, i: nat, j: nat)
    requires WellFormed(s) && forall x :: x in places ==> x < |s.order|
    requires i in Top(s, places, n) && j in places && j !in Top(s, places, n)
    ensures NewerAt(s, i, j)
  {
    if !NewerAt(s, i, j) {
      SubsetSize(NewerIn(s, places, j), NewerIn(s, places, i));
    }
  }
}
