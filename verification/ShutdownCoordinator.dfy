/** The coordinator with its mutable state, refining the interleaved steps. */
module ShutdownCoordinator {
  import opened Wrappers
  import opened ShutdownSpec
  import opened ShutdownSafety

  /** What callers await: unresolved, or resolved with one result. */
  class Completion {
    var result: Option<Resolution>

    constructor ()
      ensures result == None
    {
      result := None;
    }
  }

  class Coordinator {
    /** How many cleanup tasks there are, with the one that stops accepting requests. */
    const count: nat
    var phase: Phase
    var firstSignal: Option<Signal>
    /** The completion that every request returns, and whether it can still be resolved. */
    var completion: Completion?
    var resolver: bool
    var cleanup: Cleanup
    var failed: bool
    var outcome: Outcome
    var force: Force
    ghost var tasks: seq<TaskEvent>
    ghost var flushes: seq<bool>

    /** The results that the completion was resolved with. */
    ghost function Resolutions(): seq<Resolution>
      reads this`completion, completion
    {
      if completion == null || completion.result.None? then [] else [completion.result.value]
    }

    ghost function Model(): State
      reads this, completion
    {
      State(phase, firstSignal, cleanup, failed, outcome, force, tasks, flushes,
            if completion == null then 0 else 1, Resolutions())
    }

    ghost predicate Valid()
      reads this, completion
    {
      Inv(Model(), count) && (resolver <==> completion != null && completion.result.None?)
    }

    constructor (count: nat)
      ensures Valid() && Model() == START && completion == null && this.count == count
    {
      this.count := count;
      phase, firstSignal, completion, resolver := Running, None, null, false;
      cleanup, failed, outcome, force := NotStarted, false, Completed, Idle;
      tasks, flushes := [], [];
    }

    /** Starts the next task, or ends the loop over them. */
    method StartNext(task: nat)
      modifies this`cleanup, this`tasks, this`phase, this`outcome
      ensures Model() == StartTask(old(Model()), task, count)
    {
      if task < count {
        cleanup, tasks := AwaitingTask(task), tasks + [Started(task)];
        return;
      }
      if phase != ShuttingDown {
        cleanup := Ended;
        return;
      }
      phase, cleanup := Finished, FirstFlush;
      outcome := if failed then Failed else Completed;
    }

    /** Resolves the completion, if that has not been done. */
    method ResolveOnce(result: Outcome)
      requires firstSignal.Some? && resolver && completion != null && completion.result.None?
      modifies this`resolver, completion
      ensures Model() == Resolve(old(Model()), result) && !resolver && completion.result.Some?
    {
      if resolver {
        completion.result := Some(Resolution(firstSignal.value, result, ExitCode(result)));
      }
      resolver := false;
    }

    /** Every request gets the same completion: the first one makes it, and the later ones leave everything as it is. */
    method RequestShutdown(signal: Signal) returns (c: Completion)
      requires Valid()
      modifies this
      ensures Model() == Step(old(Model()), Requested(signal), count)
      ensures Valid() && completion == c
      ensures if old(completion) == null then fresh(c) else c == old(completion)
    {
      StepKeepsInv(Model(), Requested(signal), count);
      if phase == ShuttingDown || completion != null {
        return completion;
      }
      c := new Completion();
      phase, firstSignal := ShuttingDown, Some(signal);
      completion, resolver := c, true;
      StartNext(0);
    }

    method TimerFires()
      requires Valid()
      modifies this
      ensures completion == old(completion) && (completion != null ==> completion.result == old(completion.result))
      ensures Model() == Step(old(Model()), TimerFired, count)
      ensures Valid()
    {
      StepKeepsInv(Model(), TimerFired, count);
      if phase != ShuttingDown {
        return;
      }
      phase, force := Forced, Stopping;
    }

    method TaskSettles(ok: bool)
      requires Valid() && cleanup.AwaitingTask?
      modifies this
      ensures completion == old(completion) && (completion != null ==> completion.result == old(completion.result))
      ensures Model() == Step(old(Model()), TaskSettled(ok), count)
      ensures Valid()
    {
      hide Inv, StartTask;
      StepKeepsInv(Model(), TaskSettled(ok), count);
      var task := cleanup.task;
      tasks := tasks + [Settled(task, ok)];
      if !ok {
        failed := true;
      } else if phase != ShuttingDown {
        cleanup := Ended;
        return;
      }
      StartNext(task + 1);
    }

    method FlushSettles(ok: bool)
      requires Valid() && cleanup in {FirstFlush, SecondFlush}
      modifies this, completion
      ensures completion == old(completion) && completion != null
      ensures old(completion.result).Some? ==> completion.result == old(completion.result)
      ensures Model() == Step(old(Model()), FlushSettled(ok), count)
      ensures Valid()
    {
      StepKeepsInv(Model(), FlushSettled(ok), count);
      flushes := flushes + [ok];
      if !ok {
        outcome := Failed;
      }
      if cleanup == FirstFlush {
        cleanup := SecondFlush;
      } else {
        cleanup := Ended;
        ResolveOnce(outcome);
      }
    }

    method ForceStopSettles(ok: bool)
      requires Valid() && force == Stopping
      modifies this
      ensures completion == old(completion) && (completion != null ==> completion.result == old(completion.result))
      ensures Model() == Step(old(Model()), StopSettled(ok), count)
      ensures Valid()
    {
      StepKeepsInv(Model(), StopSettled(ok), count);
      force := Flushing;
    }

    method ForcedFlushSettles(ok: bool)
      requires Valid() && force == Flushing
      modifies this, completion
      ensures completion == old(completion) && completion != null
      ensures old(completion.result).Some? ==> completion.result == old(completion.result)
      ensures Model() == Step(old(Model()), ForcedFlushSettled(ok), count)
      ensures Valid()
    {
      StepKeepsInv(Model(), ForcedFlushSettled(ok), count);
      force := Stopped;
      ResolveOnce(TimedOut);
    }
  }
}
