/** The breaker object: mutable fields and loops over the sample list, proved against CircuitBreakerSpec. */
module CircuitBreaker {
  import opened Wrappers
  import Spec = CircuitBreakerSpec
  import opened CircuitBreakerSpec

  class Breaker {
    const config: Config
    var phase: Phase
    var openedAt: Option<int>
    var activeHalfOpenCalls: int
    var halfOpenGeneration: nat
    var halfOpenFailed: bool
    var samples: seq<Sample>

    function Model(): Spec.Breaker
      reads this
    {
      Spec.Breaker(phase, openedAt, activeHalfOpenCalls, halfOpenGeneration, halfOpenFailed, samples)
    }

    constructor (config: Config)
      requires config.Valid()
      ensures Model() == Spec.INITIAL && this.config == config
    {
      this.config := config;
      phase, openedAt, activeHalfOpenCalls := Closed, None, 0;
      halfOpenGeneration, halfOpenFailed, samples := 0, false, [];
    }

    method Prune(now: int)
      modifies this`samples
      ensures Model() == Spec.PruneAt(old(Model()), config, now)
    {
      var cutoff := now - config.rollingWindowMs;
      while samples != [] && samples[0].at < cutoff
        invariant Spec.Pruned(samples, cutoff) == Spec.Pruned(old(samples), cutoff)
        decreases |samples|
      {
        samples := samples[1..];
      }
    }

    method Counts(now: int) returns (sampleCount: nat, failureCount: nat)
      modifies this`samples
      ensures Model() == Spec.PruneAt(old(Model()), config, now)
      ensures sampleCount == |samples| && failureCount == Spec.Failures(samples)
    {
      Prune(now);
      sampleCount, failureCount := |samples|, 0;
      for i := 0 to |samples|
        invariant failureCount == Spec.Failures(samples[..i])
      {
        assert samples[..i + 1][..i] == samples[..i];
        failureCount := failureCount + if samples[i].failed then 1 else 0;
      }
      assert samples[..|samples|] == samples;
    }

    method Transition(next: Phase, now: int)
      modifies this
      ensures Model() == Spec.Transition(old(Model()), config, next, now)
    {
      if phase == next {
        return;
      }
      phase := next;
      if next == Open {
        openedAt := Some(now);
        activeHalfOpenCalls := 0;
        halfOpenGeneration := halfOpenGeneration + 1;
      }
      if next == HalfOpen {
        activeHalfOpenCalls := 0;
        halfOpenFailed := false;
        halfOpenGeneration := halfOpenGeneration + 1;
      }
      if next == Closed {
        openedAt := None;
        activeHalfOpenCalls := 0;
        samples := [];
      }
      var _, _ := Counts(now);
    }

    /** A rejection is logged with the current counts, when there is a logger. */
    method Reject(now: int)
      modifies this`samples
      ensures Model() == Spec.Rejected(old(Model()), config, now)
    {
      if config.logged {
        var _, _ := Counts(now);
      }
    }

    method Refresh(now: int)
      modifies this
      ensures Model() == Spec.Refresh(old(Model()), config, now)
    {
      if phase == Open && openedAt.Some? && now - openedAt.value >= config.openDurationMs {
        Transition(HalfOpen, now);
      }
    }

    method RecordClosed(failed: bool, now: int)
      requires config.Valid()
      modifies this
      ensures Model() == Spec.RecordClosed(old(Model()), config, failed, now)
    {
      Prune(now);
      samples := samples + [Sample(now, failed)];
      ghost var pushed := samples;
      while |samples| > config.maxSamples
        invariant Model() == old(Model()).(samples := samples)
        invariant |samples| <= |pushed| && samples == pushed[|pushed| - |samples|..]
        invariant |samples| < |pushed| ==> |samples| >= config.maxSamples
        decreases |samples|
      {
        samples := samples[1..];
      }
      assert samples == Spec.LastOf(pushed, config.maxSamples);
      var sampleCount, failureCount := Counts(now);
      if phase == Closed && sampleCount >= config.minimumSamples && failureCount >= config.failureThreshold {
        Transition(Open, now);
      }
    }

    /** `execute` up to the await. */
    method Begin(now: int) returns (call: Option<Call>)
      modifies this
      ensures (Model(), call) == Spec.Begin(old(Model()), config, now)
    {
      Refresh(now);
      if phase == Open {
        Reject(now);
        return None;
      }
      var probe, generation := phase == HalfOpen, halfOpenGeneration;
      if probe {
        if activeHalfOpenCalls >= config.halfOpenMaxCalls {
          Reject(now);
          return None;
        }
        activeHalfOpenCalls := activeHalfOpenCalls + 1;
      }
      call := Some(Call(probe, generation));
    }

    /** `execute` after the await. */
    method Finish(call: Call, outcome: Outcome, now: int)
      requires config.Valid()
      modifies this
      ensures Model() == Spec.Finish(old(Model()), config, call, outcome, now)
    {
      var current := call.probe && call.generation == halfOpenGeneration && phase == HalfOpen;
      if outcome.Succeeded? {
        if current {
          activeHalfOpenCalls := Max(0, activeHalfOpenCalls - 1);
          if activeHalfOpenCalls == 0 && !halfOpenFailed {
            Transition(Closed, now);
          }
        } else if !call.probe {
          RecordClosed(false, now);
        }
      } else {
        if current {
          activeHalfOpenCalls := Max(0, activeHalfOpenCalls - 1);
          if outcome.qualifying {
            halfOpenFailed := true;
            Transition(Open, now);
          } else if activeHalfOpenCalls == 0 && !halfOpenFailed {
            Transition(Closed, now);
          }
        } else if !call.probe && outcome.qualifying {
          RecordClosed(true, now);
        }
      }
    }

    method GetState(now: int) returns (p: Phase)
      modifies this
      ensures Model() == Spec.Refresh(old(Model()), config, now) && p == phase
    {
      Refresh(now);
      p := phase;
    }

    method GetSnapshot(now: int) returns (snapshot: Snapshot)
      modifies this
      ensures (Model(), snapshot) == Spec.TakeSnapshot(old(Model()), config, now)
    {
      Refresh(now);
      var sampleCount, failureCount := Counts(now);
      snapshot := Snapshot(phase, sampleCount, failureCount, openedAt,
                           if openedAt.None? then None else Some(openedAt.value + config.openDurationMs),
                           activeHalfOpenCalls);
    }
  }

  /** Options that are not positive integers, or whose threshold exceeds the minimum of samples, are refused. */
  method CreateCircuitBreaker(config: Config) returns (breaker: Option<Breaker>)
    ensures breaker.Some? <==>
      && 0 < config.minimumSamples <= 0x1f_ffff_ffff_ffff && 0 < config.failureThreshold <= config.minimumSamples
      && 0 < config.rollingWindowMs <= 0x1f_ffff_ffff_ffff && 0 < config.openDurationMs <= 0x1f_ffff_ffff_ffff
      && 0 < config.halfOpenMaxCalls <= 0x1f_ffff_ffff_ffff && 0 < config.maxSamples <= 0x1f_ffff_ffff_ffff
    ensures breaker.Some? ==>
      fresh(breaker.value) && breaker.value.config == config && breaker.value.Model() == Spec.INITIAL
  {
    if !config.Valid() {
      return None;
    }
    var b := new Breaker(config);
    return Some(b);
  }
}
