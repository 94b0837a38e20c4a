/** What every run of the breaker keeps: probe accounting, the legal edges, and the cooldown. */
module CircuitBreakerSafety {
  import opened Wrappers
  import opened CircuitBreakerSpec

  /** The probes in flight that belong to the current generation. */
  function Probes(s: System): set<nat> {
    set id | id in s.calls && s.calls[id].probe && s.calls[id].generation == s.breaker.generation
  }

  /**
   Half-open counts exactly its own probes in flight and stays within the
   limit; in every other phase no probe of the current generation is in flight.
   A qualifying failure always leaves half-open, so the failed flag is down there.
   */
  predicate Inv(s: System, cfg: Config) {
    var b := s.breaker;
    && (forall id :: id in s.calls ==> s.calls[id].generation <= b.generation)
    && (b.openedAt.Some? <==> b.phase != Closed)
    && b.active == |Probes(s)|
    && (b.phase != HalfOpen ==> b.active == 0)
    && (b.phase == HalfOpen ==> b.active <= cfg.halfOpenMaxCalls && !b.halfOpenFailed)
  }

  /** Removing a call and possibly moving to a new generation leaves no probe, or all but that one. */
  lemma ProbesAfterFinish(s: System, t: System, id: nat)
    requires forall i :: i in s.calls ==> s.calls[i].generation <= s.breaker.generation
    requires id in s.calls && t.calls == s.calls - {id} && s.breaker.generation <= t.breaker.generation
    ensures t.breaker.generation == s.breaker.generation ==> Probes(t) == Probes(s) - {id}
    ensures t.breaker.generation > s.breaker.generation ==> Probes(t) == {}
    ensures id in Probes(s) ==> |Probes(s) - {id}| == |Probes(s)| - 1
    ensures id !in Probes(s) ==> Probes(s) - {id} == Probes(s)
  {
  }

  lemma FinishKeepsInv(s: System, cfg: Config, id: nat, outcome: Outcome, now: int)
    requires Inv(s, cfg) && cfg.Valid() && id in s.calls
    ensures Inv(Step(s, cfg, Finishing(id, outcome), now), cfg)
  {
    hide Pruned, Failures, LastOf, LogAfter, Probes;
    var t := Step(s, cfg, Finishing(id, outcome), now);
    ProbesAfterFinish(s, t, id);
    assert id in Probes(s) <==> s.calls[id].probe && s.calls[id].generation == s.breaker.generation by {
      ProbesHold(s, id);
    }
    assert forall i :: i in t.calls ==> i in s.calls && t.calls[i] == s.calls[i];
  }

  lemma ProbesHold(s: System, id: nat)
    ensures id in Probes(s) <==> id in s.calls && s.calls[id].probe && s.calls[id].generation == s.breaker.generation
  {
  }

  lemma ReadKeepsInv(s: System, cfg: Config, e: Event, now: int)
    requires Inv(s, cfg) && cfg.Valid() && (e.ReadingState? || e.ReadingSnapshot?)
    ensures Inv(Step(s, cfg, e, now), cfg)
  {
    var t := Step(s, cfg, e, now);
    if t.breaker.generation == s.breaker.generation {
      assert Probes(t) == Probes(s);
    } else {
      assert Probes(t) == {};
    }
  }

  /** A new call is a new probe, or none. */
  lemma ProbesAfterBegin(s: System, t: System, id: nat)
    requires id !in s.calls && id in t.calls && t.calls == s.calls[id := t.calls[id]]
    requires t.breaker.generation == s.breaker.generation == t.calls[id].generation
    ensures Probes(t) == Probes(s) + (if t.calls[id].probe then {id} else {})
    ensures |Probes(t)| == |Probes(s)| + if t.calls[id].probe then 1 else 0
  {
    assert id !in Probes(s);
  }

  lemma BeginKeepsInv(s: System, cfg: Config, id: nat, now: int)
    requires Inv(s, cfg) && cfg.Valid() && id !in s.calls
    ensures Inv(Step(s, cfg, Beginning(id), now), cfg)
  {
    var t := Step(s, cfg, Beginning(id), now);
    var refreshed := Step(s, cfg, ReadingState, now);
    ReadKeepsInv(s, cfg, ReadingState, now);
    hide Pruned, LogAfter, Refresh, Probes;
    if id in t.calls {
      ProbesAfterBegin(refreshed, t, id);
    } else {
      SameProbes(refreshed, t);
    }
  }

  lemma SameProbes(s: System, t: System)
    requires t.calls == s.calls && t.breaker.generation == s.breaker.generation
    ensures Probes(t) == Probes(s)
  {
  }

  lemma StepKeepsInv(s: System, cfg: Config, e: Event, now: int)
    requires Inv(s, cfg) && cfg.Valid()
    ensures Inv(Step(s, cfg, e, now), cfg)
  {
    match e
    case Beginning(id) => if id !in s.calls { BeginKeepsInv(s, cfg, id, now); }
    case Finishing(id, outcome) => if id in s.calls { FinishKeepsInv(s, cfg, id, outcome, now); }
    case _ => ReadKeepsInv(s, cfg, e, now);
  }

  /** The invariant holds after every interleaving of calls and reads, with any clock. */
  lemma {:induction false} Reachable(run: seq<Timed>, cfg: Config)
    requires cfg.Valid()
    ensures Inv(After(run, cfg), cfg)
  {
    if run == [] {
      assert Probes(START) == {};
    } else {
      var last := |run| - 1;
      Reachable(run[..last], cfg);
      StepKeepsInv(After(run[..last], cfg), cfg, run[last].event, run[last].now);
    }
  }

  /** The clamp at zero never bites: a finishing probe of the current generation was counted. */
  lemma ClampNeverBites(s: System, cfg: Config, id: nat)
    requires Inv(s, cfg) && id in s.calls && CurrentProbe(s.breaker, s.calls[id])
    ensures Max(0, s.breaker.active - 1) == s.breaker.active - 1
  {
    assert id in Probes(s);
  }

  /** A probe of an earlier generation changes nothing but its own leaving. */
  lemma StaleProbeChangesNothing(s: System, cfg: Config, id: nat, outcome: Outcome, now: int)
    requires Inv(s, cfg) && id in s.calls && s.calls[id].probe
    requires s.calls[id].generation < s.breaker.generation || s.breaker.phase != HalfOpen
    ensures Step(s, cfg, Finishing(id, outcome), now) == s.(calls := s.calls - {id})
  {
  }

  predicate LegalEdge(a: Phase, b: Phase) {
    a == b || (a == Closed && b == Open) || (a == Open && b == HalfOpen) || (a == HalfOpen && b in {Open, Closed})
  }

  /**
   The only edges; opening stamps the time, each phase but closed starts a
   generation, and half-open is left exactly when
   a current probe fails (to open) or the last one ends without failing (to closed).
   */
  lemma Edges(s: System, cfg: Config, e: Event, now: int)
    requires Inv(s, cfg) && cfg.Valid()
    ensures var a, b := s.breaker, Step(s, cfg, e, now).breaker;
      && LegalEdge(a.phase, b.phase)
      && (b.phase == Open && a.phase != Open ==> b.openedAt == Some(now))
      && (b.phase != Closed && (a.phase == Open || b.phase == HalfOpen) ==> b.openedAt == a.openedAt)
      && b.generation == (if a.phase != b.phase && b.phase != Closed then a.generation + 1 else a.generation)
      && (a.phase == Open && b.phase == HalfOpen ==> a.openedAt.value + cfg.openDurationMs <= now)
      && (a.phase == HalfOpen ==>
          (b.phase == Open <==> EndsProbe(s, e) && e.outcome == FailedWith(true))
          && (b.phase == Closed <==> EndsProbe(s, e) && e.outcome != FailedWith(true) && Probes(s) == {e.id}))
  {
    if e.Finishing? && EndsProbe(s, e) {
      assert e.id in Probes(s);
      assert Probes(s) == {e.id} + (Probes(s) - {e.id});
      assert |Probes(s)| == 1 + |Probes(s) - {e.id}|;
    }
  }

  /** The event ends a probe that the breaker is counting. */
  predicate EndsProbe(s: System, e: Event) { e.Finishing? && e.id in Probes(s) && s.breaker.phase == HalfOpen }

  predicate Admitted(s: System, cfg: Config, e: Event, now: int) {
    e.Beginning? && e.id !in s.calls && e.id in Step(s, cfg, e, now).calls
  }

  /**
   A call is admitted exactly when the breaker is closed, when it has been open
   for `openDurationMs`, or when it is half-open and fewer than `halfOpenMaxCalls`
   of its probes are in flight. It is a probe unless the breaker is closed.
   */
  lemma AdmittedExactly(s: System, cfg: Config, id: nat, now: int)
    requires Inv(s, cfg) && cfg.Valid() && id !in s.calls
    ensures var t := Step(s, cfg, Beginning(id), now);
      && (Admitted(s, cfg, Beginning(id), now) <==>
          match s.breaker.phase
          case Closed => true
          case Open => now >= s.breaker.openedAt.value + cfg.openDurationMs
          case HalfOpen =>
            |set i | i in s.calls && s.calls[i].probe && s.calls[i].generation == s.breaker.generation|
            < cfg.halfOpenMaxCalls)
      && (id in t.calls ==>
          && t.calls == s.calls[id := Call(s.breaker.phase != Closed, t.breaker.generation)]
          && t.breaker.phase == if s.breaker.phase == Open then HalfOpen else s.breaker.phase)
      && (id !in t.calls ==> t.calls == s.calls && t.breaker.phase == s.breaker.phase)
  {
    hide Pruned;
    assert Probes(s) == set i | i in s.calls && s.calls[i].probe && s.calls[i].generation == s.breaker.generation;
  }

  /** Before the cooldown is over an open breaker stays as it is and admits nothing. */
  lemma CoolingRejects(s: System, cfg: Config, e: Event, now: int)
    requires Inv(s, cfg) && s.breaker.phase == Open && now < s.breaker.openedAt.value + cfg.openDurationMs
    ensures var t := Step(s, cfg, e, now);
      t.breaker.phase == Open && t.breaker.openedAt == s.breaker.openedAt && !Admitted(s, cfg, e, now)
  {
  }

  /**
   A snapshot shows when the breaker last opened, when calls are admitted again,
   and the probes in flight; one that is due for a probe shows as half-open.
   */
  lemma SnapshotExactly(s: System, cfg: Config, now: int)
    requires Inv(s, cfg) && cfg.Valid()
    ensures var b, snapshot := s.breaker, TakeSnapshot(s.breaker, cfg, now).1;
      && snapshot.openedAt == b.openedAt
      && (b.phase == Closed ==> snapshot.phase == Closed && snapshot.openedAt == snapshot.nextProbeAt == None)
      && (b.phase != Closed ==> snapshot.nextProbeAt == Some(b.openedAt.value + cfg.openDurationMs))
      && (b.phase == Open ==>
          snapshot.phase == if now < b.openedAt.value + cfg.openDurationMs then Open else HalfOpen)
      && (b.phase == HalfOpen ==> snapshot.phase == HalfOpen)
      && snapshot.active ==
         |set i | i in s.calls && s.calls[i].probe && s.calls[i].generation == b.generation && b.phase == HalfOpen|
  {
    hide Pruned, Failures;
    var probes := set i | i in s.calls && s.calls[i].probe && s.calls[i].generation == s.breaker.generation;
    assert Probes(s) == probes;
    var shown := set i | i in s.calls && s.calls[i].probe && s.calls[i].generation == s.breaker.generation
                         && s.breaker.phase == HalfOpen;
    assert shown == if s.breaker.phase == HalfOpen then probes else {};
  }

  /** The time a snapshot of an open breaker gives for the next probe is exactly when calls are admitted again. */
  lemma NextProbeIsExact(s: System, cfg: Config, now: int, later: int, id: nat)
    requires Inv(s, cfg) && cfg.Valid() && id !in s.calls
    ensures var (b, snapshot) := TakeSnapshot(s.breaker, cfg, now);
      snapshot.phase == Open ==>
      snapshot.nextProbeAt.Some? &&
      (Admitted(s.(breaker := b), cfg, Beginning(id), later) <==> later >= snapshot.nextProbeAt.value)
  {
    hide Pruned, Failures;
  }

  /** No run admits a call between an opening and the end of its cooldown. */
  lemma NothingAdmittedDuringCooldown(run: seq<Timed>, cfg: Config, i: nat, j: nat, since: int)
    requires cfg.Valid() && ClockAdvances(run) && i <= j < |run|
    requires After(run[..i], cfg).breaker.phase == Open && After(run[..i], cfg).breaker.openedAt == Some(since)
    requires run[j].now < since + cfg.openDurationMs
    ensures !Admitted(After(run[..j], cfg), cfg, run[j].event, run[j].now)
  {
    CoolingLasts(run, cfg, i, j, since);
    Reachable(run[..j], cfg);
    CoolingRejects(After(run[..j], cfg), cfg, run[j].event, run[j].now);
  }

  lemma {:induction false} CoolingLasts(run: seq<Timed>, cfg: Config, i: nat, j: nat, since: int)
    requires cfg.Valid() && ClockAdvances(run) && i <= j < |run|
    requires After(run[..i], cfg).breaker.phase == Open && After(run[..i], cfg).breaker.openedAt == Some(since)
    requires run[j].now < since + cfg.openDurationMs
    ensures var b := After(run[..j], cfg).breaker; b.phase == Open && b.openedAt == Some(since)
    decreases j
  {
    hide Step, Inv, Admitted;
    if i < j {
      CoolingLasts(run, cfg, i, j - 1, since);
      Reachable(run[..j - 1], cfg);
      assert run[..j][..j - 1] == run[..j - 1];
      CoolingRejects(After(run[..j - 1], cfg), cfg, run[j - 1].event, run[j - 1].now);
    }
  }
}
