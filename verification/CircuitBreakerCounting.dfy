/** When a breaker opens and what a snapshot shows, by counting the outcomes in the log. */
module CircuitBreakerCounting {
  import opened Wrappers
  import opened CircuitBreakerSpec
  import opened CircuitBreakerWindow

  /** The places of the failures in a list. */
  function FailedPlaces(samples: seq<Sample>): set<nat> { set i: nat | i < |samples| && samples[i].failed }

  /** The failure count is the number of samples that failed. */
  lemma {:induction false} FailuresAreCounted(samples: seq<Sample>)
    ensures Failures(samples) == |FailedPlaces(samples)|
  {
    if samples != [] {
      var last := |samples| - 1;
      FailuresAreCounted(samples[..last]);
      assert FailedPlaces(samples) == FailedPlaces(samples[..last]) + if samples[last].failed then {last} else {};
    }
  }

  /** The places, from `low` on, of the outcomes recorded at the cutoff or later. */
  function PlacesFrom(log: seq<Sample>, low: nat, cutoff: int): set<nat> {
    set i: nat | low <= i < |log| && log[i].at >= cutoff
  }

  function FailedFrom(log: seq<Sample>, low: nat, cutoff: int): set<nat> {
    set i: nat | low <= i < |log| && log[i].at >= cutoff && log[i].failed
  }

  lemma {:induction false} RecentIsCounted(log: seq<Sample>, low: nat, cutoff: int)
    requires low <= |log|
    ensures |Recent(log[low..], cutoff)| == |PlacesFrom(log, low, cutoff)|
    ensures Failures(Recent(log[low..], cutoff)) == |FailedFrom(log, low, cutoff)|
    decreases |log|
  {
    if low == |log| {
      assert PlacesFrom(log, low, cutoff) == {} && FailedFrom(log, low, cutoff) == {};
    } else {
      var front, last := log[..|log| - 1], |log| - 1;
      RecentIsCounted(front, low, cutoff);
      RecentOfLast(log, low, cutoff);
      FailuresOfOneMore(Recent(front[low..], cutoff), log[last]);
      PlacesOfLast(log, low, cutoff);
      hide Recent, Failures, PlacesFrom, FailedFrom;
    }
  }

  lemma RecentOfLast(log: seq<Sample>, low: nat, cutoff: int)
    requires low < |log|
    ensures var last := |log| - 1;
      var before, after := Recent(log[..last][low..], cutoff), Recent(log[low..], cutoff);
      after == if log[last].at >= cutoff then before + [log[last]] else before
  {
    var last := |log| - 1;
    assert log[low..][..last - low] == log[..last][low..];
  }

  lemma FailuresOfOneMore(samples: seq<Sample>, x: Sample)
    ensures Failures(samples + [x]) == Failures(samples) + if x.failed then 1 else 0
  {
    assert (samples + [x])[..|samples|] == samples;
  }

  lemma PlacesOfLast(log: seq<Sample>, low: nat, cutoff: int)
    requires low < |log|
    ensures var last := |log| - 1;
      && PlacesFrom(log, low, cutoff) == PlacesFrom(log[..last], low, cutoff)
           + (if log[last].at >= cutoff then {last} else {})
      && FailedFrom(log, low, cutoff) == FailedFrom(log[..last], low, cutoff)
           + (if log[last].at >= cutoff && log[last].failed then {last} else {})
      && last !in PlacesFrom(log[..last], low, cutoff) && last !in FailedFrom(log[..last], low, cutoff)
  {
  }

  /** Where the window of a log starts: at most `maxSamples` outcomes from its end. */
  function WindowStart(log: seq<Sample>, cfg: Config): nat { Max(0, |log| - cfg.maxSamples) }

  /** The outcomes of the last `maxSamples` that are no older than the rolling window. */
  function InWindow(log: seq<Sample>, cfg: Config, now: int): set<nat> {
    PlacesFrom(log, WindowStart(log, cfg), now - cfg.rollingWindowMs)
  }

  function FailedInWindow(log: seq<Sample>, cfg: Config, now: int): set<nat> {
    FailedFrom(log, WindowStart(log, cfg), now - cfg.rollingWindowMs)
  }

  lemma WindowIsCounted(log: seq<Sample>, cfg: Config, now: int)
    requires cfg.maxSamples > 0
    ensures |Window(log, cfg, now)| == |InWindow(log, cfg, now)|
    ensures Failures(Window(log, cfg, now)) == |FailedInWindow(log, cfg, now)|
  {
    var low := WindowStart(log, cfg);
    assert LastOf(log, Max(0, cfg.maxSamples)) == log[low..];
    RecentIsCounted(log, low, now - cfg.rollingWindowMs);
  }

  /**
   A closed breaker opens exactly when a call that is no probe succeeds, or fails
   in a way that counts, and then the window holds at least `minimumSamples`
   outcomes of which at least `failureThreshold` failed.
   */
  lemma OpensExactlyAtThreshold(run: seq<Timed>, cfg: Config, e: Event, now: int)
    requires cfg.Valid() && ClockAdvances(run) && (run != [] ==> run[|run| - 1].now <= now)
    requires After(run, cfg).breaker.phase == Closed
    ensures var s := After(run, cfg);
      Step(s, cfg, e, now).breaker.phase != Closed <==>
        && e.Finishing? && e.id in s.calls && !s.calls[e.id].probe && e.outcome in {Succeeded, FailedWith(true)}
        && var log := s.log + [Sample(now, e.outcome == FailedWith(true))];
        |InWindow(log, cfg, now)| >= cfg.minimumSamples && |FailedInWindow(log, cfg, now)| >= cfg.failureThreshold
  {
    OpensAtThreshold(run, cfg, e, now);
    var s := After(run, cfg);
    if Recording(s, e, now).Some? {
      WindowIsCounted(s.log + [Recording(s, e, now).value], cfg, now);
    }
    hide After, Step, Window, InWindow, FailedInWindow, Failures;
  }

  /** Without a failure that counts nothing opens a closed breaker. */
  lemma {:induction false} OnlyFailuresOpen(run: seq<Timed>, cfg: Config)
    requires cfg.Valid()
    requires forall i :: 0 <= i < |run| ==> !(run[i].event.Finishing? && run[i].event.outcome == FailedWith(true))
    ensures After(run, cfg).breaker.phase == Closed && FailedPlaces(After(run, cfg).breaker.samples) == {}
  {
    if run != [] {
      var last := run[|run| - 1];
      OnlyFailuresOpen(run[..|run| - 1], cfg);
      SuccessKeepsClosed(After(run[..|run| - 1], cfg), cfg, last.event, last.now);
    }
  }

  lemma SuccessKeepsClosed(s: System, cfg: Config, e: Event, now: int)
    requires cfg.Valid() && s.breaker.phase == Closed && FailedPlaces(s.breaker.samples) == {}
    requires !(e.Finishing? && e.outcome == FailedWith(true))
    ensures var b := Step(s, cfg, e, now).breaker; b.phase == Closed && FailedPlaces(b.samples) == {}
  {
    NoFailureLeft(s.breaker.samples, now - cfg.rollingWindowMs);
    RecordedSuccess(s.breaker, cfg, now);
    hide Pruned, Failures, FailedPlaces, LogAfter, RecordClosed;
  }

  lemma RecordedSuccess(b: Breaker, cfg: Config, now: int)
    requires cfg.failureThreshold > 0 && b.phase == Closed && FailedPlaces(b.samples) == {}
    ensures var t := RecordClosed(b, cfg, false, now); t.phase == Closed && FailedPlaces(t.samples) == {}
  {
    var cutoff := now - cfg.rollingWindowMs;
    var pruned := Pruned(b.samples, cutoff);
    NoFailureLeft(b.samples, cutoff);
    NoFailureIn(pruned);
    var pushed := LastOf(pruned + [Sample(now, false)], Max(0, cfg.maxSamples));
    NoFailureAmong(pushed);
    NoFailureLeft(pushed, cutoff);
    FailuresAreCounted(Pruned(pushed, cutoff));
    hide Pruned, Failures, FailedPlaces, LastOf;
  }

  lemma NoFailureIn(samples: seq<Sample>)
    requires FailedPlaces(samples) == {}
    ensures forall i :: 0 <= i < |samples| ==> !samples[i].failed
  {
    forall i: nat | i < |samples| ensures !samples[i].failed {
      assert i !in FailedPlaces(samples);
    }
  }

  lemma NoFailureAmong(samples: seq<Sample>)
    requires forall i :: 0 <= i < |samples| ==> !samples[i].failed
    ensures FailedPlaces(samples) == {}
  {
  }

  lemma NoFailureLeft(samples: seq<Sample>, cutoff: int)
    requires FailedPlaces(samples) == {}
    ensures FailedPlaces(Pruned(samples, cutoff)) == {}
  {
    NoFailureIn(samples);
    var k := PrunedIsSuffix(samples, cutoff);
  }

  /** In every run a snapshot counts the outcomes in the window, and the failures among them. */
  lemma SnapshotCountsWindow(run: seq<Timed>, cfg: Config, now: int)
    requires cfg.Valid() && ClockAdvances(run) && (run != [] ==> run[|run| - 1].now <= now)
    ensures var s := After(run, cfg);
      var snapshot := TakeSnapshot(s.breaker, cfg, now).1;
      snapshot.sampleCount == |InWindow(s.log, cfg, now)| && snapshot.failureCount == |FailedInWindow(s.log, cfg, now)|
  {
    var s := After(run, cfg);
    SamplesAreTheWindow(run, cfg, now);
    WindowIsCounted(s.log, cfg, now);
    SnapshotCountsSamples(s.breaker, cfg, now);
    hide After, Window, InWindow, FailedInWindow, Failures, Pruned, TakeSnapshot, WindowInv;
  }

  lemma SnapshotCountsSamples(b: Breaker, cfg: Config, now: int)
    ensures var (snapshot, kept) := (TakeSnapshot(b, cfg, now).1, Pruned(b.samples, now - cfg.rollingWindowMs));
      snapshot.sampleCount == |kept| && snapshot.failureCount == Failures(kept)
  {
    hide Pruned, Failures;
    PrunedTwice(b.samples, now - cfg.rollingWindowMs);
  }

  /** What the log holds: the outcomes of calls that were no probes, since the breaker last closed. */
  lemma LogOutcome(s: System, cfg: Config, e: Event, now: int)
    ensures var t := Step(s, cfg, e, now);
      t.log ==
        if s.breaker.phase != Closed && t.breaker.phase == Closed then []
        else if e.Finishing? && e.id in s.calls && !s.calls[e.id].probe && e.outcome in {Succeeded, FailedWith(true)}
        then s.log + [Sample(now, e.outcome == FailedWith(true))]
        else s.log
  {
    hide Pruned, Failures, LastOf;
  }
}
