/**
 Reading the breaker is not free of effects: it may move open to half-open and
 prune samples. No run can tell: reads change no later decision and no later state,
 up to doing that same work earlier.
 */
module CircuitBreakerReads {
  import opened Wrappers
  import opened CircuitBreakerSpec
  import opened CircuitBreakerSafety
  import opened CircuitBreakerWindow

  /** The breaker with its pending refresh and pruning done. */
  function Settled(b: Breaker, cfg: Config, now: int): Breaker {
    PruneAt(Refresh(b, cfg, now), cfg, now)
  }

  predicate IsRead(e: Event) { e.ReadingState? || e.ReadingSnapshot? }

  /** Two systems that no later step can tell apart. */
  predicate Alike(a: System, b: System, cfg: Config, now: int) {
    a.calls == b.calls && Settled(a.breaker, cfg, now) == Settled(b.breaker, cfg, now)
  }

  // ---------- Pruning twice ----------

  /** Pruning early does not change what a later pruning leaves. */
  lemma {:induction false} PruneEarly(samples: seq<Sample>, early: int, late: int)
    requires early <= late
    ensures Pruned(Pruned(samples, early), late) == Pruned(samples, late)
    decreases |samples|
  {
    if samples != [] && samples[0].at < early {
      PruneEarly(samples[1..], early, late);
    }
  }

  lemma SettleEarly(b: Breaker, cfg: Config, early: int, late: int)
    requires early <= late && cfg.Valid()
    ensures Settled(Settled(b, cfg, early), cfg, late) == Settled(b, cfg, late)
  {
    hide Pruned;
    var w := cfg.rollingWindowMs;
    PruneEarly(b.samples, early - w, late - w);
    PruneEarly(b.samples, early - w, early - w);
    PruneEarly(b.samples, late - w, late - w);
  }

  // ---------- One step from settled states ----------

  lemma BeginSettled(b: Breaker, cfg: Config, now: int)
    requires cfg.Valid()
    ensures Begin(Settled(b, cfg, now), cfg, now).1 == Begin(b, cfg, now).1
    ensures Settled(Begin(Settled(b, cfg, now), cfg, now).0, cfg, now) == Settled(Begin(b, cfg, now).0, cfg, now)
  {
    hide Pruned;
    PruneEarly(b.samples, now - cfg.rollingWindowMs, now - cfg.rollingWindowMs);
  }

  /** Recording starts by pruning, so it cannot see whether that had been done. */
  lemma RecordSettled(b: Breaker, cfg: Config, failed: bool, now: int)
    requires cfg.Valid()
    ensures Settled(RecordClosed(Settled(b, cfg, now), cfg, failed, now), cfg, now)
         == Settled(RecordClosed(b, cfg, failed, now), cfg, now)
  {
    hide Pruned, LastOf, Failures;
    var cutoff := now - cfg.rollingWindowMs;
    PruneEarly(b.samples, cutoff, cutoff);
    var pushed := LastOf(Pruned(b.samples, cutoff) + [Sample(now, failed)], Max(0, cfg.maxSamples));
    PruneEarly(pushed, cutoff, cutoff);
  }

  /** A call in flight belongs to an open breaker's past: it is no probe of its generation. */
  predicate InFlight(b: Breaker, c: Call) {
    c.generation <= b.generation && (c.probe && b.phase != HalfOpen ==> c.generation < b.generation)
  }

  lemma ProbeSettled(b: Breaker, cfg: Config, c: Call, outcome: Outcome, now: int)
    requires cfg.Valid() && InFlight(b, c) && c.probe
    ensures Settled(Finish(Settled(b, cfg, now), cfg, c, outcome, now), cfg, now)
         == Settled(Finish(b, cfg, c, outcome, now), cfg, now)
  {
    hide Pruned;
    PruneEarly(b.samples, now - cfg.rollingWindowMs, now - cfg.rollingWindowMs);
    assert Pruned([], now - cfg.rollingWindowMs) == [] by {
      EmptyRepresents(cfg, now);
    }
  }

  lemma FinishSettled(b: Breaker, cfg: Config, c: Call, outcome: Outcome, now: int)
    requires cfg.Valid() && InFlight(b, c)
    ensures Settled(Finish(Settled(b, cfg, now), cfg, c, outcome, now), cfg, now)
         == Settled(Finish(b, cfg, c, outcome, now), cfg, now)
  {
    if c.probe {
      ProbeSettled(b, cfg, c, outcome, now);
    } else {
      hide Pruned, LastOf, Failures, RecordClosed;
      PruneEarly(b.samples, now - cfg.rollingWindowMs, now - cfg.rollingWindowMs);
      RecordSettled(b, cfg, outcome.FailedWith?, now);
    }
  }

  lemma FlightsAreInFlight(s: System, cfg: Config, id: nat)
    requires Inv(s, cfg) && id in s.calls
    ensures InFlight(s.breaker, s.calls[id])
  {
    if s.calls[id].probe && s.calls[id].generation == s.breaker.generation {
      assert id in Probes(s);
    }
  }

  // ---------- Runs ----------

  lemma StepKeepsAlike(a: System, b: System, cfg: Config, e: Event, now: int)
    requires cfg.Valid() && Inv(a, cfg) && Inv(b, cfg) && Alike(a, b, cfg, now) && !IsRead(e)
    ensures Alike(Step(a, cfg, e, now), Step(b, cfg, e, now), cfg, now)
    ensures Admitted(a, cfg, e, now) <==> Admitted(b, cfg, e, now)
  {
    hide Settled, Begin, Finish, Inv;
    match e
    case Beginning(id) =>
      BeginSettled(a.breaker, cfg, now);
      BeginSettled(b.breaker, cfg, now);
    case Finishing(id, outcome) =>
      if id in a.calls {
        FlightsAreInFlight(a, cfg, id);
        FlightsAreInFlight(b, cfg, id);
        FinishSettled(a.breaker, cfg, a.calls[id], outcome, now);
        FinishSettled(b.breaker, cfg, b.calls[id], outcome, now);
      }
    case _ => assert false;
  }

  lemma ReadIsInvisible(s: System, t: System, cfg: Config, e: Event, now: int)
    requires cfg.Valid() && IsRead(e) && Alike(s, t, cfg, now)
    ensures Alike(Step(s, cfg, e, now), t, cfg, now)
  {
    hide Pruned;
    PruneEarly(s.breaker.samples, now - cfg.rollingWindowMs, now - cfg.rollingWindowMs);
  }

  lemma AlikeLater(a: System, b: System, cfg: Config, now: int, later: int)
    requires cfg.Valid() && now <= later && Alike(a, b, cfg, now)
    ensures Alike(a, b, cfg, later)
  {
    hide Settled;
    SettleEarly(a.breaker, cfg, now, later);
    SettleEarly(b.breaker, cfg, now, later);
  }

  /** The run without its reads. */
  function WithoutReads(run: seq<Timed>): seq<Timed> {
    if run == [] then []
    else
      var last := run[|run| - 1];
      WithoutReads(run[..|run| - 1]) + if IsRead(last.event) then [] else [last]
  }

  /** For each `Beginning`, in order, whether it was admitted. */
  function Decisions(run: seq<Timed>, cfg: Config): seq<bool> {
    if run == [] then []
    else
      var init, last := run[..|run| - 1], run[|run| - 1];
      Decisions(init, cfg) +
        if last.event.Beginning? then [Admitted(After(init, cfg), cfg, last.event, last.now)] else []
  }

  lemma {:induction false} WithoutReadsIsEarlier(run: seq<Timed>, now: int)
    requires ClockAdvances(run) && (run != [] ==> run[|run| - 1].now <= now)
    ensures forall i :: 0 <= i < |WithoutReads(run)| ==> WithoutReads(run)[i].now <= now
    ensures ClockAdvances(WithoutReads(run))
  {
    if run != [] {
      WithoutReadsIsEarlier(run[..|run| - 1], run[|run| - 1].now);
    }
  }

  /**
   Reads anywhere in a run change no decision to admit or reject, and leave a
   system that is alike to the one without them at every later time.
   */
  lemma {:induction false} ReadsChangeNothing(run: seq<Timed>, cfg: Config, now: int)
    requires cfg.Valid() && ClockAdvances(run) && (run != [] ==> run[|run| - 1].now <= now)
    ensures Decisions(run, cfg) == Decisions(WithoutReads(run), cfg)
    ensures Alike(After(run, cfg), After(WithoutReads(run), cfg), cfg, now)
  {
    if run != [] {
      hide Alike, Step, Inv, Admitted;
      var init, last := run[..|run| - 1], run[|run| - 1];
      ReadsChangeNothing(init, cfg, last.now);
      var s, t := After(init, cfg), After(WithoutReads(init), cfg);
      if IsRead(last.event) {
        assert WithoutReads(run) == WithoutReads(init);
        ReadIsInvisible(s, t, cfg, last.event, last.now);
      } else {
        assert WithoutReads(run) == WithoutReads(init) + [last];
        assert WithoutReads(run)[..|WithoutReads(init)|] == WithoutReads(init);
        Reachable(init, cfg);
        Reachable(WithoutReads(init), cfg);
        StepKeepsAlike(s, t, cfg, last.event, last.now);
      }
      AlikeLater(After(run, cfg), After(WithoutReads(run), cfg), cfg, last.now, now);
    }
  }

  /** Alike systems have the phase a read shows, the snapshot and the next decision in common at any later time. */
  lemma AlikeIsIndistinguishable(a: System, b: System, cfg: Config, now: int, later: int, e: Event)
    requires cfg.Valid() && now <= later && Alike(a, b, cfg, now)
    ensures TakeSnapshot(a.breaker, cfg, later) == TakeSnapshot(b.breaker, cfg, later)
    ensures Refresh(a.breaker, cfg, later).phase == Refresh(b.breaker, cfg, later).phase
    ensures Admitted(a, cfg, e, later) <==> Admitted(b, cfg, e, later)
  {
    AlikeLater(a, b, cfg, now, later);
    BeginSettled(a.breaker, cfg, later);
    BeginSettled(b.breaker, cfg, later);
  }
}
