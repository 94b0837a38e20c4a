/** Which breakers can open at all. */
module CircuitBreakerOpening {
  import opened CircuitBreakerSpec

  // ---------- Too short a list ----------

  lemma {:induction false} PrunedIsShorter(samples: seq<Sample>, cutoff: int)
    ensures |Pruned(samples, cutoff)| <= |samples|
    decreases |samples|
  {
    if samples != [] && samples[0].at < cutoff {
      PrunedIsShorter(samples[1..], cutoff);
    }
  }

  /** Recording keeps at most `maxSamples` outcomes, which are then too few to open. */
  lemma ShortListStaysClosed(b: Breaker, cfg: Config, failed: bool, now: int)
    requires cfg.maxSamples < cfg.minimumSamples && 0 < cfg.maxSamples && b.phase == Closed
    ensures RecordClosed(b, cfg, failed, now).phase == Closed
  {
    hide Pruned, Failures;
    PrunedIsShorter(LastOf(Pruned(b.samples, now - cfg.rollingWindowMs) + [Sample(now, failed)], cfg.maxSamples),
                    now - cfg.rollingWindowMs);
  }

  /** A breaker that keeps fewer samples than it needs never opens, in any run and with any clock. */
  lemma {:induction false} ShortListNeverOpens(run: seq<Timed>, cfg: Config)
    requires cfg.Valid() && cfg.maxSamples < cfg.minimumSamples
    ensures After(run, cfg).breaker.phase == Closed
  {
    hide RecordClosed, LogAfter;
    if run != [] {
      var last := run[|run| - 1];
      var s := After(run[..|run| - 1], cfg);
      ShortListNeverOpens(run[..|run| - 1], cfg);
      if last.event.Finishing? {
        ShortListStaysClosed(s.breaker, cfg, last.event.outcome.FailedWith?, last.now);
      }
    }
  }

  // ---------- A run that opens ----------

  /** A call that fails at once. */
  const FAILING_CALL := [Timed(0, Beginning(0)), Timed(0, Finishing(0, FailedWith(true)))]

  /** That many calls, one after the other. */
  function FailingRun(calls: nat): seq<Timed> {
    if calls == 0 then [] else FailingRun(calls - 1) + FAILING_CALL
  }

  function FailedAtZero(n: nat): seq<Sample> { seq(n, i => Sample(0, true)) }

  /** A closed breaker that has recorded nothing but `n` failures. */
  function Failing(n: nat): System { System(INITIAL.(samples := FailedAtZero(n)), map[], FailedAtZero(n)) }

  lemma {:induction false} AllAreFailures(n: nat)
    ensures Failures(FailedAtZero(n)) == n
  {
    if n > 0 {
      AllAreFailures(n - 1);
      assert FailedAtZero(n)[..n - 1] == FailedAtZero(n - 1);
    }
  }

  lemma RecordsOneMore(cfg: Config, n: nat)
    requires n < cfg.maxSamples && cfg.rollingWindowMs > 0
    ensures Recorded(Failing(n).breaker, cfg, true, 0) == Failing(n + 1).breaker
  {
    assert FailedAtZero(n) + [Sample(0, true)] == FailedAtZero(n + 1);
  }

  /** One more failing call is recorded, and opens the breaker if that makes enough. */
  lemma OneMoreFails(cfg: Config, n: nat)
    requires cfg.Valid() && n < cfg.minimumSamples && n < cfg.maxSamples
    ensures var t := Step(Step(Failing(n), cfg, Beginning(0), 0), cfg, Finishing(0, FailedWith(true)), 0);
      if n + 1 < cfg.minimumSamples then t == Failing(n + 1) else t.breaker.phase == Open
  {
    hide Recorded, Pruned, Failures;
    RecordsOneMore(cfg, n);
    AllAreFailures(n + 1);
    assert Failing(n).log + [Sample(0, true)] == Failing(n + 1).log;
    assert map[0 := Call(false, 0)] - {0} == map[];
  }

  lemma {:induction false} FailingRunTakesNoTime(calls: nat)
    ensures var run := FailingRun(calls); ClockAdvances(run) && forall i :: 0 <= i < |run| ==> run[i].now == 0
  {
    if calls > 0 {
      FailingRunTakesNoTime(calls - 1);
    }
  }

  lemma AfterFailingCall(run: seq<Timed>, cfg: Config)
    ensures After(run + FAILING_CALL, cfg) ==
            Step(Step(After(run, cfg), cfg, Beginning(0), 0), cfg, Finishing(0, FailedWith(true)), 0)
  {
    var more := run + FAILING_CALL;
    assert more[..|more| - 1] == run + FAILING_CALL[..1];
    assert (run + FAILING_CALL[..1])[..|run|] == run;
  }

  lemma {:induction false} AfterFailing(cfg: Config, n: nat)
    requires cfg.Valid() && n <= cfg.minimumSamples <= cfg.maxSamples
    ensures if n < cfg.minimumSamples then After(FailingRun(n), cfg) == Failing(n)
            else After(FailingRun(n), cfg).breaker.phase == Open
  {
    hide Step;
    if n > 0 {
      AfterFailing(cfg, n - 1);
      AfterFailingCall(FailingRun(n - 1), cfg);
      OneMoreFails(cfg, n - 1);
    }
  }

  /** Some run with an advancing clock opens the breaker exactly when it keeps as many samples as it needs. */
  lemma OpensInSomeRun(cfg: Config)
    requires cfg.Valid()
    ensures (exists run :: ClockAdvances(run) && After(run, cfg).breaker.phase != Closed) <==>
            cfg.minimumSamples <= cfg.maxSamples
  {
    hide After;
    if cfg.minimumSamples <= cfg.maxSamples {
      AfterFailing(cfg, cfg.minimumSamples);
      FailingRunTakesNoTime(cfg.minimumSamples);
    } else {
      forall run ensures After(run, cfg).breaker.phase == Closed {
        ShortListNeverOpens(run, cfg);
      }
    }
  }
}
