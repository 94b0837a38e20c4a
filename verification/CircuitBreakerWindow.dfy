/** The incrementally pruned sample list is the rolling window of the outcomes recorded since the last close. */
module CircuitBreakerWindow {
  import opened Wrappers
  import opened CircuitBreakerSpec

  /** The entries no older than the cutoff, wherever they stand. */
  function Recent(samples: seq<Sample>, cutoff: int): seq<Sample> {
    if samples == [] then []
    else
      var last := |samples| - 1;
      Recent(samples[..last], cutoff) + if samples[last].at >= cutoff then [samples[last]] else []
  }

  /** The window by definition: of the last `maxSamples` outcomes since the last close, the recent ones. */
  function Window(log: seq<Sample>, cfg: Config, now: int): seq<Sample> {
    Recent(LastOf(log, Max(0, cfg.maxSamples)), now - cfg.rollingWindowMs)
  }

  ghost predicate Ordered(samples: seq<Sample>) {
    forall i, j :: 0 <= i <= j < |samples| ==> samples[i].at <= samples[j].at
  }

  // ---------- Pruning ----------

  lemma {:induction false} PrunedIsSuffix(samples: seq<Sample>, cutoff: int) returns (k: nat)
    ensures k <= |samples| && Pruned(samples, cutoff) == samples[k..]
    ensures forall i :: 0 <= i < k ==> samples[i].at < cutoff
    ensures k < |samples| ==> samples[k].at >= cutoff
    decreases |samples|
  {
    if samples != [] && samples[0].at < cutoff {
      var rest := PrunedIsSuffix(samples[1..], cutoff);
      k := rest + 1;
      assert samples[1..][rest..] == samples[k..];
      forall i | 0 <= i < k ensures samples[i].at < cutoff {
        assert i == 0 || samples[i] == samples[1..][i - 1];
      }
    } else {
      k := 0;
    }
  }

  /** A suffix whose dropped part is stale prunes to the same list. */
  lemma {:induction false} StalePrefixDoesNotMatter(samples: seq<Sample>, k: nat, cutoff: int)
    requires k <= |samples| && forall i :: 0 <= i < k ==> samples[i].at < cutoff
    ensures Pruned(samples[k..], cutoff) == Pruned(samples, cutoff)
    decreases k
  {
    if k == 0 {
      assert samples[0..] == samples;
    } else {
      assert samples[1..][k - 1..] == samples[k..];
      forall i | 0 <= i < k - 1 ensures samples[1..][i].at < cutoff {
        assert samples[1..][i] == samples[i + 1];
      }
      StalePrefixDoesNotMatter(samples[1..], k - 1, cutoff);
    }
  }

  lemma {:induction false} RecentOfFresh(samples: seq<Sample>, cutoff: int)
    requires forall i :: 0 <= i < |samples| ==> samples[i].at >= cutoff
    ensures Recent(samples, cutoff) == samples
  {
    if samples != [] {
      RecentOfFresh(samples[..|samples| - 1], cutoff);
    }
  }

  lemma {:induction false} RecentAfterStale(samples: seq<Sample>, k: nat, cutoff: int)
    requires k <= |samples| && forall i :: 0 <= i < k ==> samples[i].at < cutoff
    requires forall i :: k <= i < |samples| ==> samples[i].at >= cutoff
    ensures Recent(samples, cutoff) == samples[k..]
  {
    if samples != [] {
      var last := |samples| - 1;
      if k <= last {
        RecentAfterStale(samples[..last], k, cutoff);
        assert samples[k..] == samples[..last][k..] + [samples[last]];
      } else {
        RecentAfterStale(samples[..last], last, cutoff);
      }
    }
  }

  /** On samples in time order, dropping stale ones from the front keeps exactly the recent ones. */
  lemma PruneIsRecent(samples: seq<Sample>, cutoff: int)
    requires Ordered(samples)
    ensures Pruned(samples, cutoff) == Recent(samples, cutoff)
  {
    var k := PrunedIsSuffix(samples, cutoff);
    RecentAfterStale(samples, k, cutoff);
  }

  // ---------- The representation ----------

  /**
   At time `now` the sample list is a suffix of the log; what it dropped is
   either stale by now or further back than `maxSamples` entries.
   */
  predicate Represents(samples: seq<Sample>, log: seq<Sample>, cfg: Config, now: int) {
    && |samples| <= |log| && |samples| <= cfg.maxSamples
    && samples == log[|log| - |samples|..]
    && forall i :: 0 <= i < |log| - |samples| && |log| - cfg.maxSamples <= i ==> log[i].at < now - cfg.rollingWindowMs
  }

  ghost predicate WindowInv(s: System, cfg: Config, now: int) {
    && Represents(s.breaker.samples, s.log, cfg, now)
    && Ordered(s.log) && (s.log != [] ==> s.log[|s.log| - 1].at <= now)
  }

  lemma SuffixOfSuffix(log: seq<Sample>, samples: seq<Sample>, k: nat)
    requires |samples| <= |log| && samples == log[|log| - |samples|..] && k <= |samples|
    ensures samples[k..] == log[|log| - (|samples| - k)..]
    ensures forall i :: 0 <= i < k ==> samples[i] == log[|log| - |samples| + i]
  {
  }

  lemma PruneRepresents(samples: seq<Sample>, log: seq<Sample>, cfg: Config, now: int, later: int)
    requires Represents(samples, log, cfg, now) && now <= later
    ensures Represents(samples, log, cfg, later)
    ensures Represents(Pruned(samples, later - cfg.rollingWindowMs), log, cfg, later)
  {
    var k := PrunedIsSuffix(samples, later - cfg.rollingWindowMs);
    SuffixOfSuffix(log, samples, k);
    var d := |log| - |samples|;
    forall i | 0 <= i < d + k && |log| - cfg.maxSamples <= i ensures log[i].at < later - cfg.rollingWindowMs {
      assert i < d || log[i] == samples[i - d];
    }
  }

  lemma PushRepresents(samples: seq<Sample>, log: seq<Sample>, cfg: Config, x: Sample, now: int)
    requires Represents(samples, log, cfg, now) && cfg.maxSamples > 0
    ensures Represents(LastOf(samples + [x], cfg.maxSamples), log + [x], cfg, now)
  {
    var pushed := samples + [x];
    var trimmed := LastOf(pushed, cfg.maxSamples);
    SuffixOfSuffix(log + [x], pushed, |pushed| - |trimmed|);
  }

  lemma LastIsOrdered(log: seq<Sample>, n: nat)
    requires Ordered(log)
    ensures Ordered(LastOf(log, n))
  {
    var last := LastOf(log, n);
    forall i, j | 0 <= i <= j < |last| ensures last[i].at <= last[j].at {
      assert last[i] == log[|log| - |last| + i] && last[j] == log[|log| - |last| + j];
    }
  }

  /** What the sample list lacks of the last `maxSamples` entries is stale. */
  lemma DroppedIsStale(samples: seq<Sample>, log: seq<Sample>, cfg: Config, now: int)
    requires Represents(samples, log, cfg, now) && cfg.maxSamples > 0
    ensures var last := LastOf(log, cfg.maxSamples);
      && |samples| <= |last| && samples == last[|last| - |samples|..]
      && forall i :: 0 <= i < |last| - |samples| ==> last[i].at < now - cfg.rollingWindowMs
  {
    var last := LastOf(log, cfg.maxSamples);
    SuffixOfSuffix(log, last, |last| - |samples|);
    forall i | 0 <= i < |last| - |samples| ensures last[i].at < now - cfg.rollingWindowMs {
      assert last[i] == log[|log| - |last| + i];
    }
  }

  /** Pruned at any later time, the sample list is the window by definition. */
  lemma RepresentsWindow(samples: seq<Sample>, log: seq<Sample>, cfg: Config, now: int)
    requires Represents(samples, log, cfg, now) && Ordered(log) && cfg.maxSamples > 0
    ensures Pruned(samples, now - cfg.rollingWindowMs) == Window(log, cfg, now)
  {
    hide Pruned, Recent, Represents, LastOf, Ordered;
    var last := LastOf(log, cfg.maxSamples);
    DroppedIsStale(samples, log, cfg, now);
    LastIsOrdered(log, cfg.maxSamples);
    StalePrefixDoesNotMatter(last, |last| - |samples|, now - cfg.rollingWindowMs);
    PruneIsRecent(last, now - cfg.rollingWindowMs);
  }

  // ---------- Runs ----------

  lemma RecordedRepresents(b: Breaker, log: seq<Sample>, cfg: Config, failed: bool, before: int, now: int)
    requires Represents(b.samples, log, cfg, before) && before <= now && cfg.maxSamples > 0
    ensures Represents(Recorded(b, cfg, failed, now).samples, log + [Sample(now, failed)], cfg, now)
  {
    hide Represents, Pruned, LastOf;
    var x := Sample(now, failed);
    PruneRepresents(b.samples, log, cfg, before, now);
    var pruned := Pruned(b.samples, now - cfg.rollingWindowMs);
    PushRepresents(pruned, log, cfg, x, now);
    PruneRepresents(LastOf(pruned + [x], cfg.maxSamples), log + [x], cfg, now, now);
  }

  lemma EmptyRepresents(cfg: Config, now: int)
    requires cfg.maxSamples > 0
    ensures Represents([], [], cfg, now) && Pruned([], now - cfg.rollingWindowMs) == []
  {
  }

  /** Ending a probe may prune, and empties the samples exactly when it closes the breaker. */
  lemma ProbeSamples(b: Breaker, cfg: Config, c: Call, outcome: Outcome, now: int)
    requires c.probe
    ensures var t := Finish(b, cfg, c, outcome, now);
      if b.phase != Closed && t.phase == Closed then t.samples == Pruned([], now - cfg.rollingWindowMs)
      else t.samples == b.samples || t.samples == Pruned(b.samples, now - cfg.rollingWindowMs)
  {
    hide Pruned;
  }

  /** Recording never closes the breaker, and may prune once more when it opens it. */
  lemma RecordedSamples(b: Breaker, cfg: Config, failed: bool, now: int)
    ensures var r, t := Recorded(b, cfg, failed, now).samples, RecordClosed(b, cfg, failed, now);
      (b.phase != Closed ==> t.phase != Closed) && (t.samples == r || t.samples == Pruned(r, now - cfg.rollingWindowMs))
  {
    hide Pruned, Failures, LastOf;
  }

  lemma FinishRepresents(s: System, cfg: Config, id: nat, outcome: Outcome, before: int, now: int)
    requires Represents(s.breaker.samples, s.log, cfg, before) && before <= now && cfg.maxSamples > 0 && id in s.calls
    ensures var t := Step(s, cfg, Finishing(id, outcome), now); Represents(t.breaker.samples, t.log, cfg, now)
  {
    hide Represents, Pruned, Recorded, RecordClosed;
    PruneRepresents(s.breaker.samples, s.log, cfg, before, now);
    if s.calls[id].probe {
      EmptyRepresents(cfg, now);
      ProbeSamples(s.breaker, cfg, s.calls[id], outcome, now);
      hide Finish;
    } else if outcome != FailedWith(false) {
      var failed := outcome.FailedWith?;
      var kept := Recorded(s.breaker, cfg, failed, now).samples;
      RecordedRepresents(s.breaker, s.log, cfg, failed, before, now);
      PruneRepresents(kept, s.log + [Sample(now, failed)], cfg, now, now);
      RecordedSamples(s.breaker, cfg, failed, now);
    }
  }

  lemma StepRepresents(s: System, cfg: Config, e: Event, before: int, now: int)
    requires Represents(s.breaker.samples, s.log, cfg, before) && before <= now && cfg.maxSamples > 0
    ensures Represents(Step(s, cfg, e, now).breaker.samples, Step(s, cfg, e, now).log, cfg, now)
  {
    hide Represents, Pruned, LastOf, Failures, Finish;
    PruneRepresents(s.breaker.samples, s.log, cfg, before, now);
    PruneRepresents(Pruned(s.breaker.samples, now - cfg.rollingWindowMs), s.log, cfg, now, now);
    if e.Finishing? && e.id in s.calls {
      FinishRepresents(s, cfg, e.id, e.outcome, before, now);
    }
  }

  /** A step empties the log, keeps it, or appends one outcome recorded now. */
  lemma LogGrowsByOne(s: System, cfg: Config, e: Event, now: int)
    ensures var t := Step(s, cfg, e, now);
      t.log == [] || t.log == s.log || exists failed :: t.log == s.log + [Sample(now, failed)]
  {
    hide Begin, Finish, TakeSnapshot, Refresh;
  }

  lemma StepKeepsOrder(s: System, cfg: Config, e: Event, before: int, now: int)
    requires Ordered(s.log) && (s.log != [] ==> s.log[|s.log| - 1].at <= before) && before <= now
    ensures var log := Step(s, cfg, e, now).log; Ordered(log) && (log != [] ==> log[|log| - 1].at <= now)
  {
    hide Step;
    LogGrowsByOne(s, cfg, e, now);
  }

  lemma StepKeepsWindow(s: System, cfg: Config, e: Event, before: int, now: int)
    requires WindowInv(s, cfg, before) && before <= now && cfg.Valid()
    ensures WindowInv(Step(s, cfg, e, now), cfg, now)
  {
    hide Step, Represents, Ordered;
    StepRepresents(s, cfg, e, before, now);
    StepKeepsOrder(s, cfg, e, before, now);
  }

  /** In every run, whenever the list is pruned it is the window by definition. */
  lemma {:induction false} SamplesAreTheWindow(run: seq<Timed>, cfg: Config, now: int)
    requires cfg.Valid() && ClockAdvances(run) && (run != [] ==> run[|run| - 1].now <= now)
    ensures WindowInv(After(run, cfg), cfg, now)
    ensures Pruned(After(run, cfg).breaker.samples, now - cfg.rollingWindowMs) == Window(After(run, cfg).log, cfg, now)
  {
    if run != [] {
      var last := |run| - 1;
      SamplesAreTheWindow(run[..last], cfg, run[last].now);
      StepKeepsWindow(After(run[..last], cfg), cfg, run[last].event, run[last].now, run[last].now);
      PruneRepresents(After(run, cfg).breaker.samples, After(run, cfg).log, cfg, run[last].now, now);
    }
    RepresentsWindow(After(run, cfg).breaker.samples, After(run, cfg).log, cfg, now);
  }

  /** A closed breaker opens exactly at a recording after which the window reaches both thresholds. */
  lemma OpensAtThreshold(run: seq<Timed>, cfg: Config, e: Event, now: int)
    requires cfg.Valid() && ClockAdvances(run) && (run != [] ==> run[|run| - 1].now <= now)
    requires After(run, cfg).breaker.phase == Closed
    ensures var s := After(run, cfg);
      Step(s, cfg, e, now).breaker.phase != Closed <==>
        Recording(s, e, now).Some? &&
        var w := Window(s.log + [Recording(s, e, now).value], cfg, now);
        |w| >= cfg.minimumSamples && Failures(w) >= cfg.failureThreshold
  {
    hide Represents, Pruned, LastOf, Failures, After, Recent, Ordered, Window;
    var s := After(run, cfg);
    SamplesAreTheWindow(run, cfg, now);
    if Recording(s, e, now).Some? {
      var x := Recording(s, e, now).value;
      var kept := Recorded(s.breaker, cfg, x.failed, now).samples;
      RecordedRepresents(s.breaker, s.log, cfg, x.failed, now, now);
      LogStaysOrdered(s, cfg, x, now);
      RepresentsWindow(kept, s.log + [x], cfg, now);
      PrunedTwice(LastOf(Pruned(s.breaker.samples, now - cfg.rollingWindowMs) + [x], cfg.maxSamples),
                  now - cfg.rollingWindowMs);
    }
  }

  lemma LogStaysOrdered(s: System, cfg: Config, x: Sample, now: int)
    requires WindowInv(s, cfg, now) && x.at == now
    ensures Ordered(s.log + [x])
  {
  }

  lemma PrunedTwice(samples: seq<Sample>, cutoff: int)
    ensures Pruned(Pruned(samples, cutoff), cutoff) == Pruned(samples, cutoff)
  {
  }
}
