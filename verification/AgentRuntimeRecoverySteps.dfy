/** Recovery visits one entry after the other; here is what one visit does and how visits add up. */
module AgentRuntimeRecoverySteps {
  import opened Wrappers
  import opened AgentRuntimeTypes
  import opened AgentRuntimeSpec

  ghost function Withdrawn(s: State, k: Key): (t: State)
    requires WellFormed(s)
    ensures WellFormed(t)
  {
    s.(outputs := WithdrawOutputs(s, {k}))
  }

  /** Whether `recover` acts on the entry, and whether it puts it back to ready. */
  ghost predicate IsOutcome(s: State, k: Key, quotas: Option<Quotas>, now: int, retried: bool)
    requires k in s.runtimes
  {
    var r' := Recovered(s.runtimes[k], quotas, now);
    r' != s.runtimes[k] && (r'.status == Ready) == retried
  }

  lemma OutcomesOfOne(s: State, done: set<Key>, k: Key, quotas: Option<Quotas>, now: int, retried: bool)
    requires k in s.runtimes && k !in done
    ensures |Outcomes(s, done + {k}, quotas, now, retried)|
         == |Outcomes(s, done, quotas, now, retried)| + if IsOutcome(s, k, quotas, now, retried) then 1 else 0
  {
    hide Recovered;
    var before, after := Outcomes(s, done, quotas, now, retried), Outcomes(s, done + {k}, quotas, now, retried);
    if IsOutcome(s, k, quotas, now, retried) {
      assert after == before + {k};
    } else {
      assert after == before;
    }
  }

  lemma NoOutcomes(s: State, quotas: Option<Quotas>, now: int, retried: bool)
    ensures Outcomes(s, {}, quotas, now, retried) == {}
  {
  }

  /** Visiting one entry: withdraw its outputs, then release it if it has run out. */
  lemma VisitOne(s: State, k: Key, quotas: Option<Quotas>, now: int)
    requires WellFormed(s) && k in s.runtimes
    ensures var r' := Recovered(s.runtimes[k], quotas, now);
      RecoverOn(s, {k}, quotas, now) ==
        if r' == s.runtimes[k] then Withdrawn(s, k) else Outcome(Withdrawn(s, k), k, r', r'.status)
  {
    hide Recovered, WellFormed, WithdrawOutputs, Outcomes;
    var t, r' := RecoverOn(s, {k}, quotas, now), Recovered(s.runtimes[k], quotas, now);
    assert {} + {k} == {k};
    NoOutcomes(s, quotas, now, true);
    NoOutcomes(s, quotas, now, false);
    OutcomesOfOne(s, {}, k, quotas, now, true);
    OutcomesOfOne(s, {}, k, quotas, now, false);
    assert t.runtimes == s.runtimes[k := r'];
  }

  /** A withdrawal shows only where some output is left orphaned. */
  lemma WithdrawOne(s: State, k: Key)
    requires WellFormed(s) && k in s.runtimes
    ensures WithdrawOutputs(s, {k}) ==
      if k in s.outputs && !s.runtimes[k].status.Terminal() then s.outputs[k := OrphanedIfPublished(s.outputs[k])]
      else s.outputs
    ensures k in s.outputs ==>
      var outs := OrphanedIfPublished(s.outputs[k]);
      (exists i :: 0 <= i < |outs| && outs[i].orphaned) || outs == s.outputs[k]
    ensures s.runtimes[k].status.Terminal() ==> Withdrawn(s, k) == s
  {
    if k in s.outputs {
      var outs := OrphanedIfPublished(s.outputs[k]);
      if forall i :: 0 <= i < |outs| ==> !outs[i].orphaned {
        assert outs == s.outputs[k];
      }
    }
  }

  lemma WithdrawNext(s: State, t: State, done: set<Key>, k: Key)
    requires WellFormed(s) && WellFormed(t) && k in s.runtimes && k !in done
    requires t.outputs == WithdrawOutputs(s, done) && k in t.runtimes && t.runtimes[k] == s.runtimes[k]
    ensures WithdrawOutputs(t, {k}) == WithdrawOutputs(s, done + {k})
  {
  }

  /** Visiting a further entry extends the recovery of those visited before. */
  lemma VisitNext(s: State, done: set<Key>, k: Key, quotas: Option<Quotas>, now: int)
    requires WellFormed(s) && k in s.runtimes && k !in done
    ensures RecoverOn(RecoverOn(s, done, quotas, now), {k}, quotas, now) == RecoverOn(s, done + {k}, quotas, now)
  {
    hide Recovered, WellFormed, WithdrawOutputs, Outcomes;
    var t, u := RecoverOn(s, done, quotas, now), RecoverOn(s, done + {k}, quotas, now);
    VisitOne(t, k, quotas, now);
    WithdrawNext(s, t, done, k);
    OutcomesOfOne(s, done, k, quotas, now, true);
    OutcomesOfOne(s, done, k, quotas, now, false);
    assert u.runtimes == t.runtimes[k := Recovered(s.runtimes[k], quotas, now)];
    assert t.runtimes[k := t.runtimes[k]] == t.runtimes;
  }

  lemma RecoverableNext(s: State, done: set<Key>, k: Key, quotas: Option<Quotas>, now: int)
    requires k in s.runtimes && k !in done
    ensures |Recoverable(s, done + {k}, quotas, now)|
         == |Recoverable(s, done, quotas, now)|
          + if Recovered(s.runtimes[k], quotas, now) != s.runtimes[k] then 1 else 0
  {
    hide Recovered;
    var before, after := Recoverable(s, done, quotas, now), Recoverable(s, done + {k}, quotas, now);
    if Recovered(s.runtimes[k], quotas, now) != s.runtimes[k] {
      assert after == before + {k};
    } else {
      assert after == before;
    }
  }

  lemma VisitedAll(s: State, quotas: Option<Quotas>, now: int)
    requires WellFormed(s)
    ensures Visited(s.order, |s.order|) == s.runtimes.Keys && Visited(s.order, 0) == {}
    ensures RecoverOn(s, {}, quotas, now) == s && Recoverable(s, {}, quotas, now) == {}
  {
    hide Recovered;
    NoOutcomes(s, quotas, now, true);
    NoOutcomes(s, quotas, now, false);
    assert WithdrawOutputs(s, {}) == s.outputs;
    assert RecoverOn(s, {}, quotas, now).runtimes == s.runtimes;
  }

  /** The entries visited in the first `n` rounds. */
  ghost function Visited(order: seq<Key>, n: nat): set<Key>
    requires n <= |order|
  {
    set k | k in order[..n]
  }

  lemma VisitsNew(s: State, i: nat)
    requires WellFormed(s) && i < |s.order|
    ensures s.order[i] in s.runtimes && s.order[i] !in Visited(s.order, i)
    ensures Visited(s.order, i + 1) == Visited(s.order, i) + {s.order[i]}
  {
    assert s.order[i] in s.order;
    assert s.order[..i + 1] == s.order[..i] + [s.order[i]];
  }

  lemma UnvisitedIsUnchanged(s: State, done: set<Key>, k: Key, quotas: Option<Quotas>, now: int)
    requires WellFormed(s) && k in s.runtimes && k !in done
    ensures RecoverOn(s, done, quotas, now).runtimes[k] == s.runtimes[k]
  {
  }

  /** How many entries of `chosen` are visited in the first `n` rounds. */
  ghost function CountVisited(order: seq<Key>, chosen: set<Key>, n: nat): nat
    requires n <= |order|
  {
    |chosen * Visited(order, n)|
  }

  /** Counting the entries of `chosen` one visit at a time. */
  lemma CountNext(s: State, chosen: set<Key>, i: nat)
    requires WellFormed(s) && i < |s.order|
    ensures CountVisited(s.order, chosen, i + 1)
         == CountVisited(s.order, chosen, i) + if s.order[i] in chosen then 1 else 0
  {
    VisitsNew(s, i);
    if s.order[i] in chosen {
      assert chosen * Visited(s.order, i + 1) == chosen * Visited(s.order, i) + {s.order[i]};
    } else {
      assert chosen * Visited(s.order, i + 1) == chosen * Visited(s.order, i);
    }
  }

  lemma CountAll(s: State, chosen: set<Key>)
    requires WellFormed(s) && chosen <= s.runtimes.Keys
    ensures CountVisited(s.order, chosen, |s.order|) == |chosen| && CountVisited(s.order, chosen, 0) == 0
  {
    assert chosen * Visited(s.order, |s.order|) == chosen && chosen * Visited(s.order, 0) == {};
  }

  lemma UnexpiredAreEntries(s: State, tenantId: string, now: int)
    ensures UnexpiredLeases(s, tenantId, now) <= s.runtimes.Keys
  {
  }

  lemma UnexpiredAt(s: State, tenantId: string, now: int, k: Key)
    requires k in s.runtimes
    ensures k in UnexpiredLeases(s, tenantId, now) <==>
            s.runtimes[k].tenantId == tenantId && s.runtimes[k].HoldsUnexpiredLease(now)
  {
  }

  lemma ActiveAreEntries(s: State, tenantId: string)
    ensures ActiveRuntimes(s, tenantId) <= s.runtimes.Keys
  {
  }

  lemma ActiveAt(s: State, tenantId: string, k: Key)
    requires k in s.runtimes
    ensures k in ActiveRuntimes(s, tenantId) <==> s.runtimes[k].tenantId == tenantId && !s.runtimes[k].status.Terminal()
  {
  }
}
