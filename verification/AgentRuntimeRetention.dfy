/** Sorting the terminal entries newest first puts exactly the collected ones at the end. */
module AgentRuntimeRetention {
  import opened Wrappers
  import opened AgentRuntimeTypes
  import opened AgentRuntimeSpec

  /** `places` lists the terminal entries of a tenant among the first `n`, newest first. */
  ghost predicate IsSorted(s: State, tenantId: string, n: nat, places: seq<nat>)
    requires WellFormed(s) && n <= |s.order|
  {
    && (forall p: nat :: p in places <==> p < n && IsRetired(s, tenantId, s.order[p]))
    && (forall i :: 0 <= i < |places| ==> places[i] < n)
    && (forall i, j :: 0 <= i < j < |places| ==> NewerAt(s, places[i], places[j]))
  }

  /** A new entry goes behind all entries that are at least as new. */
  lemma InsertKeepsSorted(s: State, tenantId: string, n: nat, places: seq<nat>, at: nat)
    requires WellFormed(s) && n < |s.order| && IsSorted(s, tenantId, n, places) && at <= |places|
    requires IsRetired(s, tenantId, s.order[n])
    requires forall i :: 0 <= i < at ==> NewerAt(s, places[i], n)
    requires at < |places| ==> !NewerAt(s, places[at], n)
    ensures IsSorted(s, tenantId, n + 1, places[..at] + [n] + places[at..])
  {
    var after := places[..at] + [n] + places[at..];
    InsertMembers(places, at, n);
    assert n + 1 <= |s.order| && forall i :: 0 <= i < |after| ==> after[i] < n + 1;
    InsertKeepsOrder(s, tenantId, n, places, at);
  }

  lemma InsertMembers(places: seq<nat>, at: nat, n: nat)
    requires at <= |places|
    ensures forall p: nat :: p in places[..at] + [n] + places[at..] <==> p in places || p == n
  {
    assert places == places[..at] + places[at..];
  }

  lemma InsertKeepsOrder(s: State, tenantId: string, n: nat, places: seq<nat>, at: nat)
    requires WellFormed(s) && n < |s.order| && IsSorted(s, tenantId, n, places) && at <= |places|
    requires forall i :: 0 <= i < at ==> NewerAt(s, places[i], n)
    requires at < |places| ==> !NewerAt(s, places[at], n)
    ensures var after := places[..at] + [n] + places[at..];
      forall i, j :: 0 <= i < j < |after| ==>
        after[i] < |s.order| && after[j] < |s.order| && NewerAt(s, after[i], after[j])
  {
    var after := places[..at] + [n] + places[at..];
    forall i, j | 0 <= i < j < |after|
      ensures after[i] < |s.order| && after[j] < |s.order| && NewerAt(s, after[i], after[j])
    {
      if i == at {
        NewerThanRest(s, tenantId, n, places, at, j - 1);
      }
    }
  }

  /** The entry that `n` is put in front of, and all behind it, are older than `n`. */
  lemma NewerThanRest(s: State, tenantId: string, n: nat, places: seq<nat>, at: nat, j: nat)
    requires WellFormed(s) && n < |s.order| && IsSorted(s, tenantId, n, places) && at <= j < |places|
    requires !NewerAt(s, places[at], n)
    ensures NewerAt(s, n, places[j])
  {
    assert places[at] < n && NewerAt(s, n, places[at]);
    assert j == at || NewerAt(s, places[at], places[j]);
  }

  function Members<T>(xs: seq<T>): set<T> { set x | x in xs }

  lemma MembersNext<T>(xs: seq<T>, i: nat)
    requires i < |xs|
    ensures Members(xs[..i + 1]) == Members(xs[..i]) + {xs[i]}
  {
    assert xs[..i + 1] == xs[..i] + [xs[i]];
  }

  lemma {:induction false} MembersSize<T>(xs: seq<T>)
    requires forall i, j :: 0 <= i < j < |xs| ==> xs[i] != xs[j]
    ensures |Members(xs)| == |xs|
  {
    if xs != [] {
      var last := |xs| - 1;
      MembersSize(xs[..last]);
      assert Members(xs) == Members(xs[..last]) + {xs[last]};
    }
  }

  lemma PlaceIsRank(s: State, tenantId: string, places: seq<nat>, i: nat)
    requires WellFormed(s) && IsSorted(s, tenantId, |s.order|, places) && i < |places|
    ensures |NewerThan(s, tenantId, places[i])| == i
  {
    var newer := places[..i];
    forall p | p in NewerThan(s, tenantId, places[i]) ensures p in newer {
      var j :| 0 <= j < |places| && places[j] == p;
      assert j < i;
    }
    assert NewerThan(s, tenantId, places[i]) == Members(newer);
    MembersSize(newer);
  }

  function KeysAt(order: seq<Key>, places: seq<nat>): (keys: seq<Key>)
    requires forall i :: 0 <= i < |places| ==> places[i] < |order|
    ensures |keys| == |places| && forall i :: 0 <= i < |places| ==> keys[i] == order[places[i]]
  {
    seq(|places|, i requires 0 <= i < |places| => order[places[i]])
  }

  lemma TailPlaces(s: State, tenantId: string, retention: int, places: seq<nat>, keep: nat)
    requires WellFormed(s) && IsSorted(s, tenantId, |s.order|, places)
    requires keep == Min(Max(1, retention), |places|)
    ensures Members(places[keep..]) == CollectedPlaces(s, tenantId, retention)
  {
    hide WellFormed, NewerThan;
    forall p: nat | p in places[keep..] ensures p in CollectedPlaces(s, tenantId, retention) {
      var i :| keep <= i < |places| && places[i] == p;
      PlaceIsRank(s, tenantId, places, i);
      assert places[i] in places;
    }
    forall p | p in CollectedPlaces(s, tenantId, retention) ensures p in places[keep..] {
      assert p in places;
      var i :| 0 <= i < |places| && places[i] == p;
      PlaceIsRank(s, tenantId, places, i);
      assert places[keep..][i - keep] == p;
    }
  }

  /** Past the first `max(1, retention)`, the sorted entries are the collected ones. */
  lemma TailIsCollected(s: State, tenantId: string, retention: int, places: seq<nat>, keep: nat)
    requires WellFormed(s) && IsSorted(s, tenantId, |s.order|, places)
    requires keep == Min(Max(1, retention), |places|)
    ensures Members(KeysAt(s.order, places)[keep..]) == CollectedKeys(s, tenantId, retention)
    ensures |CollectedKeys(s, tenantId, retention)| == |places| - keep
  {
    var keys := KeysAt(s.order, places);
    TailPlaces(s, tenantId, retention, places, keep);
    TailKeys(s, places, keep);
    forall i, j | 0 <= i < j < |keys| ensures keys[i] != keys[j] {
      assert NewerAt(s, places[i], places[j]);
    }
    MembersSize(keys[keep..]);
  }

  lemma TailKeys(s: State, places: seq<nat>, keep: nat)
    requires keep <= |places| && forall i :: 0 <= i < |places| ==> places[i] < |s.order|
    ensures Members(KeysAt(s.order, places)[keep..])
         == set p: nat | p in Members(places[keep..]) && p < |s.order| :: s.order[p]
  {
    var keys, tail := KeysAt(s.order, places), places[keep..];
    forall k | k in keys[keep..] ensures k in (set p: nat | p in Members(tail) && p < |s.order| :: s.order[p]) {
      var i :| keep <= i < |keys| && keys[i] == k;
      assert places[i] == tail[i - keep];
    }
    forall p: nat | p in Members(tail) && p < |s.order| ensures s.order[p] in keys[keep..] {
      var i :| 0 <= i < |tail| && tail[i] == p;
      assert keys[keep..][i] == s.order[p];
    }
  }

  lemma {:induction false} WithoutTwice(order: seq<Key>, a: set<Key>, b: set<Key>)
    ensures Without(Without(order, a), b) == Without(order, a + b)
  {
    hide Distinct;
    if order != [] {
      var init, k := order[..|order| - 1], order[|order| - 1];
      WithoutTwice(init, a, b);
      if k !in a {
        assert (Without(init, a) + [k])[..|Without(init, a)|] == Without(init, a);
      }
    }
  }

  lemma {:induction false} WithoutNone(order: seq<Key>)
    ensures Without(order, {}) == order
  {
    hide Distinct;
    if order != [] {
      var init, k := order[..|order| - 1], order[|order| - 1];
      WithoutNone(init);
      assert Without(order, {}) == init + [k];
      assert order == init + [k];
      hide Without;
    }
  }
}
