/**
 The circuit breaker as a state machine. An `execute` call is two steps, split
 where it awaits the operation: `Begin` admits or rejects it, `Finish` records
 how the operation ended. Other calls may run in between.
 */
module CircuitBreakerSpec {
  import opened Wrappers

  datatype Phase = Closed | Open | HalfOpen

  datatype Sample = Sample(at: int, failed: bool)

  datatype Config = Config(
    minimumSamples: int, failureThreshold: int, rollingWindowMs: int, openDurationMs: int,
    halfOpenMaxCalls: int, maxSamples: int, logged: bool)
  {
    /** What the constructor demands. */
    predicate Valid() {
      && IsPositiveInteger(minimumSamples) && IsPositiveInteger(failureThreshold) && IsPositiveInteger(rollingWindowMs)
      && IsPositiveInteger(openDurationMs) && IsPositiveInteger(halfOpenMaxCalls) && IsPositiveInteger(maxSamples)
      && failureThreshold <= minimumSamples
    }
  }

  datatype Breaker = Breaker(
    phase: Phase, openedAt: Option<int>, active: int, generation: nat, halfOpenFailed: bool, samples: seq<Sample>)

  /** What `execute` remembers across the await. */
  datatype Call = Call(probe: bool, generation: nat)

  /** A failure qualifies when it counts against the dependency and the caller did not cancel. */
  datatype Outcome = Succeeded | FailedWith(qualifying: bool)

  datatype Snapshot = Snapshot(
    phase: Phase, sampleCount: nat, failureCount: nat, openedAt: Option<int>, nextProbeAt: Option<int>, active: int)

  const INITIAL := Breaker(Closed, None, 0, 0, false, [])

  function Pruned(samples: seq<Sample>, cutoff: int): seq<Sample> {
    if samples != [] && samples[0].at < cutoff then Pruned(samples[1..], cutoff) else samples
  }

  function Failures(samples: seq<Sample>): (n: nat)
    ensures n <= |samples|
  {
    if samples == [] then 0 else Failures(samples[..|samples| - 1]) + if samples[|samples| - 1].failed then 1 else 0
  }

  function LastOf(samples: seq<Sample>, n: nat): seq<Sample> {
    if |samples| <= n then samples else samples[|samples| - n..]
  }

  function PruneAt(b: Breaker, cfg: Config, now: int): Breaker {
    b.(samples := Pruned(b.samples, now - cfg.rollingWindowMs))
  }

  function Transition(b: Breaker, cfg: Config, next: Phase, now: int): Breaker {
    if b.phase == next then b
    else
      var moved := match next
        case Open => b.(phase := Open, openedAt := Some(now), active := 0, generation := b.generation + 1)
        case HalfOpen => b.(phase := HalfOpen, active := 0, halfOpenFailed := false, generation := b.generation + 1)
        case Closed => b.(phase := Closed, openedAt := None, active := 0, samples := []);
      PruneAt(moved, cfg, now)
  }

  predicate CooledDown(b: Breaker, cfg: Config, now: int) {
    b.phase == Open && b.openedAt.Some? && now - b.openedAt.value >= cfg.openDurationMs
  }

  function Refresh(b: Breaker, cfg: Config, now: int): Breaker {
    if CooledDown(b, cfg, now) then Transition(b, cfg, HalfOpen, now) else b
  }

  function Rejected(b: Breaker, cfg: Config, now: int): Breaker {
    if cfg.logged then PruneAt(b, cfg, now) else b
  }

  /** The first half of `execute`: the call to remember, or none if it is rejected. */
  function Begin(b: Breaker, cfg: Config, now: int): (Breaker, Option<Call>) {
    var r := Refresh(b, cfg, now);
    match r.phase
    case Open => (Rejected(r, cfg, now), None)
    case Closed => (r, Some(Call(false, r.generation)))
    case HalfOpen =>
      if r.active >= cfg.halfOpenMaxCalls then (Rejected(r, cfg, now), None)
      else (r.(active := r.active + 1), Some(Call(true, r.generation)))
  }

  function Recorded(b: Breaker, cfg: Config, failed: bool, now: int): Breaker {
    var samples := LastOf(Pruned(b.samples, now - cfg.rollingWindowMs) + [Sample(now, failed)], Max(0, cfg.maxSamples));
    var kept := Pruned(samples, now - cfg.rollingWindowMs);
    b.(samples := kept)
  }

  function RecordClosed(b: Breaker, cfg: Config, failed: bool, now: int): Breaker {
    var r := Recorded(b, cfg, failed, now);
    if r.phase == Closed && |r.samples| >= cfg.minimumSamples && Failures(r.samples) >= cfg.failureThreshold
    then Transition(r, cfg, Open, now) else r
  }

  predicate CurrentProbe(b: Breaker, c: Call) {
    c.probe && c.generation == b.generation && b.phase == HalfOpen
  }

  /** The second half of `execute`. */
  function Finish(b: Breaker, cfg: Config, c: Call, outcome: Outcome, now: int): Breaker {
    if CurrentProbe(b, c) then
      var r := b.(active := Max(0, b.active - 1));
      if outcome == FailedWith(true) then Transition(r.(halfOpenFailed := true), cfg, Open, now)
      else if r.active == 0 && !r.halfOpenFailed then Transition(r, cfg, Closed, now)
      else r
    else if !c.probe && outcome != FailedWith(false) then RecordClosed(b, cfg, outcome.FailedWith?, now)
    else b
  }

  function TakeSnapshot(b: Breaker, cfg: Config, now: int): (Breaker, Snapshot) {
    var r := PruneAt(Refresh(b, cfg, now), cfg, now);
    (r, Snapshot(r.phase, |r.samples|, Failures(r.samples), r.openedAt,
                 if r.openedAt.None? then None else Some(r.openedAt.value + cfg.openDurationMs), r.active))
  }

  // ---------- The breaker with its calls in flight ----------

  /**
   `calls` holds the admitted calls still awaiting their operation; `log` is
   the list of all outcomes recorded since the breaker last closed.
   */
  datatype System = System(breaker: Breaker, calls: map<nat, Call>, log: seq<Sample>)

  datatype Event = Beginning(id: nat) | Finishing(id: nat, outcome: Outcome) | ReadingState | ReadingSnapshot

  const START := System(INITIAL, map[], [])

  /** The outcome a finishing call records, if it does. */
  function Recording(s: System, e: Event, now: int): Option<Sample> {
    if e.Finishing? && e.id in s.calls && !s.calls[e.id].probe && e.outcome != FailedWith(false)
    then Some(Sample(now, e.outcome.FailedWith?)) else None
  }

  function LogAfter(s: System, after: Breaker, e: Event, now: int): seq<Sample> {
    if s.breaker.phase != Closed && after.phase == Closed then []
    else if Recording(s, e, now).Some? then s.log + [Recording(s, e, now).value]
    else s.log
  }

  /** One step. A `Beginning` must use a new id and a `Finishing` one in flight; otherwise nothing happens. */
  function Step(s: System, cfg: Config, e: Event, now: int): System {
    var b := s.breaker;
    match e
    case Beginning(id) =>
      if id in s.calls then s
      else
        var (b', call) := Begin(b, cfg, now);
        System(b', if call.Some? then s.calls[id := call.value] else s.calls, LogAfter(s, b', e, now))
    case Finishing(id, outcome) =>
      if id !in s.calls then s
      else
        var b' := Finish(b, cfg, s.calls[id], outcome, now);
        System(b', s.calls - {id}, LogAfter(s, b', e, now))
    case ReadingState => s.(breaker := Refresh(b, cfg, now))
    case ReadingSnapshot => s.(breaker := TakeSnapshot(b, cfg, now).0)
  }

  datatype Timed = Timed(now: int, event: Event)

  function After(run: seq<Timed>, cfg: Config): System {
    if run == [] then START
    else
      var last := run[|run| - 1];
      Step(After(run[..|run| - 1], cfg), cfg, last.event, last.now)
  }

  ghost predicate ClockAdvances(run: seq<Timed>) {
    forall i, j :: 0 <= i <= j < |run| ==> run[i].now <= run[j].now
  }
}
