/**
 The shutdown coordinator as interleaved steps. Its two asynchronous parts, the
 ordered cleanup and the forced stop, each wait for one callback at a time; a
 callback that is not configured settles at once and without error.
 */
module ShutdownSpec {
  import opened Wrappers

  datatype Signal = SIGINT | SIGTERM

  datatype Outcome = Completed | Failed | TimedOut

  datatype Phase = Running | ShuttingDown | Finished | Forced

  datatype Resolution = Resolution(signal: Signal, outcome: Outcome, exitCode: nat)

  /** What the cleanup waits for. */
  datatype Cleanup = NotStarted | AwaitingTask(task: nat) | FirstFlush | SecondFlush | Ended

  /** What the forced stop waits for. */
  datatype Force = Idle | Stopping | Flushing | Stopped

  datatype TaskEvent = Started(task: nat) | Settled(task: nat, ok: bool)

  /**
   `failed` and `outcome` are what the cleanup remembers across its awaits. The
   last four fields record what happened: the steps of tasks, how each flush of
   the cleanup ended, the completions made, and every call that resolved one.
   */
  datatype State = State(
    phase: Phase, signal: Option<Signal>, cleanup: Cleanup, failed: bool, outcome: Outcome, force: Force,
    tasks: seq<TaskEvent>, flushes: seq<bool>, completions: nat, resolutions: seq<Resolution>)

  datatype Event =
    | Requested(signal: Signal)
    | TimerFired
    | TaskSettled(ok: bool)
    | FlushSettled(ok: bool)
    | StopSettled(ok: bool)
    | ForcedFlushSettled(ok: bool)

  const START := State(Running, None, NotStarted, false, Completed, Idle, [], [], 0, [])

  /** The cleanup goes on with a task, or ends its loop when there is none left. */
  function StartTask(s: State, task: nat, count: nat): State {
    if task < count then s.(cleanup := AwaitingTask(task), tasks := s.tasks + [Started(task)])
    else if s.phase != ShuttingDown then s.(cleanup := Ended)
    else s.(phase := Finished, cleanup := FirstFlush, outcome := if s.failed then Failed else Completed)
  }

  function Request(s: State, signal: Signal, count: nat): State {
    if s.phase == ShuttingDown || s.completions > 0 then s
    else StartTask(s.(phase := ShuttingDown, signal := Some(signal), completions := s.completions + 1), 0, count)
  }

  function FireTimer(s: State): State {
    if s.phase != ShuttingDown then s else s.(phase := Forced, force := Stopping)
  }

  /** A failed task does not ask whether the stop was forced meanwhile; a successful one does. */
  function SettleTask(s: State, ok: bool, count: nat): State {
    if !s.cleanup.AwaitingTask? then s
    else
      var task := s.cleanup.task;
      var settled := s.(tasks := s.tasks + [Settled(task, ok)]);
      if !ok then StartTask(settled.(failed := true), task + 1, count)
      else if s.phase != ShuttingDown then settled.(cleanup := Ended)
      else StartTask(settled, task + 1, count)
  }

  function ExitCode(outcome: Outcome): nat { if outcome == Completed then 0 else 1 }

  function Resolve(s: State, outcome: Outcome): State {
    s.(resolutions := s.resolutions +
       if s.signal.Some? then [Resolution(s.signal.value, outcome, ExitCode(outcome))] else [])
  }

  function SettleFlush(s: State, ok: bool): State {
    if s.cleanup != FirstFlush && s.cleanup != SecondFlush then s
    else
      var flushed := s.(flushes := s.flushes + [ok], outcome := if ok then s.outcome else Failed);
      if s.cleanup == FirstFlush then flushed.(cleanup := SecondFlush)
      else Resolve(flushed.(cleanup := Ended), flushed.outcome)
  }

  function SettleStop(s: State): State {
    if s.force != Stopping then s else s.(force := Flushing)
  }

  function SettleForcedFlush(s: State): State {
    if s.force != Flushing then s else Resolve(s.(force := Stopped), TimedOut)
  }

  /** One step with `count` cleanup tasks. A callback that is not awaited cannot settle. */
  function Step(s: State, e: Event, count: nat): State {
    match e
    case Requested(signal) => Request(s, signal, count)
    case TimerFired => FireTimer(s)
    case TaskSettled(ok) => SettleTask(s, ok, count)
    case FlushSettled(ok) => SettleFlush(s, ok)
    case StopSettled(_) => SettleStop(s)
    case ForcedFlushSettled(_) => SettleForcedFlush(s)
  }

  function After(run: seq<Event>, count: nat): State {
    if run == [] then START else Step(After(run[..|run| - 1], count), run[|run| - 1], count)
  }
}
