/** What every interleaving of signals, the timer and callbacks keeps. */
module ShutdownSafety {
  import opened Wrappers
  import opened ShutdownSpec

  /** Tasks start in order, each at most once and only after the previous one settled. */
  predicate InOrder(tasks: seq<TaskEvent>) {
    forall i :: 0 <= i < |tasks| ==>
      if i % 2 == 0 then tasks[i] == Started(i / 2) else tasks[i].Settled? && tasks[i].task == i / 2
  }

  predicate AllSucceeded(tasks: seq<TaskEvent>) {
    forall i :: 0 <= i < |tasks| ==> tasks[i].Settled? ==> tasks[i].ok
  }

  predicate BothFlushed(flushes: seq<bool>) { flushes == [true, true] }

  /** Where the cleanup stands, by what happened. */
  predicate CleanupAgrees(s: State, count: nat) {
    match s.cleanup
    case NotStarted => s.phase == Running && s.tasks == [] && s.flushes == []
    case AwaitingTask(task) =>
      task < count && |s.tasks| == 2 * task + 1 && s.flushes == [] && s.phase in {ShuttingDown, Forced}
    case FirstFlush => s.phase == Finished && |s.tasks| == 2 * count && s.flushes == []
    case SecondFlush => s.phase == Finished && |s.tasks| == 2 * count && |s.flushes| == 1
    case Ended =>
      || (s.phase == Finished && |s.tasks| == 2 * count && |s.flushes| == 2)
      || (s.phase == Forced && |s.tasks| % 2 == 0 && |s.tasks| <= 2 * count && s.flushes == [])
  }

  /** The completion is resolved exactly when the part that won has ended, with what it found. */
  predicate ResolutionAgrees(s: State) {
    && (s.phase == Forced <==> s.force != Idle)
    && (s.completions == if s.phase == Running then 0 else 1)
    && (s.signal.Some? <==> s.phase != Running)
    && match s.phase
       case Finished =>
         s.resolutions ==
         if s.cleanup == Ended then [Resolution(s.signal.value, s.outcome, ExitCode(s.outcome))] else []
       case Forced =>
         s.resolutions == if s.force == Stopped then [Resolution(s.signal.value, TimedOut, 1)] else []
       case _ => s.resolutions == []
  }

  /** What the cleanup remembers is what happened. */
  predicate OutcomeAgrees(s: State) {
    && (s.failed <==> !AllSucceeded(s.tasks))
    && (s.phase == Finished ==>
        && s.outcome in {Completed, Failed}
        && (s.outcome == Completed <==> AllSucceeded(s.tasks) && forall i :: 0 <= i < |s.flushes| ==> s.flushes[i]))
  }

  predicate Inv(s: State, count: nat) {
    InOrder(s.tasks) && CleanupAgrees(s, count) && ResolutionAgrees(s) && OutcomeAgrees(s)
  }

  lemma TaskKeepsInv(s: State, ok: bool, count: nat)
    requires Inv(s, count)
    ensures Inv(SettleTask(s, ok, count), count)
  {
    if s.cleanup.AwaitingTask? {
      var t := SettleTask(s, ok, count);
      assert s.tasks <= t.tasks;
      assert t.tasks[|s.tasks|] == Settled(s.cleanup.task, ok);
      assert forall i :: 0 <= i < |s.tasks| ==> t.tasks[i] == s.tasks[i];
    }
  }

  lemma FlushKeepsInv(s: State, ok: bool, count: nat)
    requires Inv(s, count)
    ensures Inv(SettleFlush(s, ok), count)
  {
    var t := SettleFlush(s, ok);
    if s.cleanup in {FirstFlush, SecondFlush} {
      assert t.flushes[|s.flushes|] == ok;
      assert forall i :: 0 <= i < |s.flushes| ==> t.flushes[i] == s.flushes[i];
    }
  }

  lemma StepKeepsInv(s: State, e: Event, count: nat)
    requires Inv(s, count)
    ensures Inv(Step(s, e, count), count)
  {
    match e
    case TaskSettled(ok) => TaskKeepsInv(s, ok, count);
    case FlushSettled(ok) => FlushKeepsInv(s, ok, count);
    case _ =>
  }

  lemma {:induction false} Reachable(run: seq<Event>, count: nat)
    ensures Inv(After(run, count), count)
  {
    if run != [] {
      Reachable(run[..|run| - 1], count);
      StepKeepsInv(After(run[..|run| - 1], count), run[|run| - 1], count);
    }
  }

  // ---------- What a caller may rely on ----------

  /** All requests share one completion, and it is resolved at most once. */
  lemma OneCompletion(run: seq<Event>, count: nat)
    ensures After(run, count).completions <= 1 && |After(run, count).resolutions| <= 1
    ensures run != [] && run[|run| - 1].Requested? ==> After(run, count).completions == 1
  {
    Reachable(run, count);
    if run != [] && run[|run| - 1].Requested? {
      Reachable(run[..|run| - 1], count);
    }
  }

  /** The signal of the result is the first one requested. */
  lemma {:induction false} FirstSignalWins(run: seq<Event>, count: nat, i: nat)
    requires i < |run| && run[i].Requested? && forall j :: 0 <= j < i ==> !run[j].Requested?
    ensures After(run, count).signal == Some(run[i].signal)
  {
    hide Step, Inv;
    var last := |run| - 1;
    Reachable(run[..last], count);
    if i < last {
      FirstSignalWins(run[..last], count, i);
      SignalStays(After(run[..last], count), run[last], count);
    } else {
      FirstRequest(run[last], count);
      NotRequestedYet(run[..last], count);
    }
  }

  lemma SignalStays(s: State, e: Event, count: nat)
    requires Inv(s, count) && s.signal.Some?
    ensures Step(s, e, count).signal == s.signal
  {
  }

  lemma FirstRequest(e: Event, count: nat)
    requires e.Requested?
    ensures Step(START, e, count).signal == Some(e.signal)
  {
  }

  lemma {:induction false} NotRequestedYet(run: seq<Event>, count: nat)
    requires forall j :: 0 <= j < |run| ==> !run[j].Requested?
    ensures After(run, count) == START
  {
    if run != [] {
      NotRequestedYet(run[..|run| - 1], count);
    }
  }

  /**
   The exit code is zero exactly when the timer did not win and every task and
   both flushes succeeded; otherwise it is one, and the outcome says whether
   the timer won.
   */
  lemma ExitCodeTellsAll(run: seq<Event>, count: nat)
    requires After(run, count).resolutions != []
    ensures var s := After(run, count);
      && (s.resolutions[0].exitCode == 0 <==>
          s.phase != Forced && |s.tasks| == 2 * count && AllSucceeded(s.tasks) && BothFlushed(s.flushes))
      && (s.resolutions[0].outcome == TimedOut <==> s.phase == Forced)
      && s.resolutions[0].exitCode == (if s.resolutions[0].outcome == Completed then 0 else 1)
  {
    Reachable(run, count);
  }

  /** Once shutting down, either the completion is resolved or some callback is still awaited. */
  lemma NeverStuck(run: seq<Event>, count: nat)
    requires After(run, count).phase != Running
    ensures var s := After(run, count);
      s.resolutions != [] || s.cleanup in {FirstFlush, SecondFlush} || s.force in {Stopping, Flushing}
      || (s.phase == ShuttingDown && s.cleanup.AwaitingTask?)
  {
    Reachable(run, count);
  }

  // ---------- Without a timeout ----------

  function Settles(results: seq<bool>): (r: seq<Event>)
    ensures |r| == |results| && forall i :: 0 <= i < |r| ==> r[i] == TaskSettled(results[i])
  {
    seq(|results|, i requires 0 <= i < |results| => TaskSettled(results[i]))
  }

  /** The cleanup awaits task `n`, or its first flush when there is none left. */
  predicate IsAt(s: State, n: nat, count: nat) {
    && s.phase == (if n < count then ShuttingDown else Finished)
    && s.cleanup == (if n < count then AwaitingTask(n) else FirstFlush)
  }

  /** The cleanup goes on with the next task whether or not one fails, and flushes after the last. */
  lemma {:induction false} TasksSettle(signal: Signal, results: seq<bool>, count: nat)
    requires |results| <= count
    ensures var s := After([Requested(signal)] + Settles(results), count);
      && s.signal == Some(signal) && IsAt(s, |results|, count)
      && (AllSucceeded(s.tasks) <==> false !in results)
  {
    if results == [] {
      assert [Requested(signal)] + Settles([]) == [Requested(signal)];
      StartedCleanup(signal, count);
    } else {
      var last := |results| - 1;
      hide After, IsAt, AllSucceeded, Step;
      var before := [Requested(signal)] + Settles(results[..last]);
      TasksSettle(signal, results[..last], count);
      SettlesOneMore(results);
      assert [Requested(signal)] + Settles(results) == before + [TaskSettled(results[last])];
      hide Settles;
      AfterOneMore(before, TaskSettled(results[last]), count);
      SettledOneMore(After(before, count), last, results[last], count);
      assert results == results[..last] + [results[last]];
    }
  }

  lemma SettlesOneMore(results: seq<bool>)
    requires results != []
    ensures var last := |results| - 1; Settles(results) == Settles(results[..last]) + [TaskSettled(results[last])]
  {
  }

  lemma StartedCleanup(signal: Signal, count: nat)
    ensures var s := After([Requested(signal)], count);
      s.signal == Some(signal) && IsAt(s, 0, count) && AllSucceeded(s.tasks)
  {
    AfterOneMore([], Requested(signal), count);
    assert [] + [Requested(signal)] == [Requested(signal)];
  }

  lemma SettledOneMore(s: State, n: nat, ok: bool, count: nat)
    requires IsAt(s, n, count) && n < count
    ensures var t := Step(s, TaskSettled(ok), count);
      && IsAt(t, n + 1, count) && t.signal == s.signal
      && (AllSucceeded(t.tasks) <==> AllSucceeded(s.tasks) && ok)
  {
    var t := SettleTask(s, ok, count).tasks;
    assert t[|s.tasks|] == Settled(s.cleanup.task, ok);
    assert forall i :: 0 <= i < |s.tasks| ==> t[i] == s.tasks[i];
  }

  /** When the timer does not fire, every task is awaited and both flushes, and then the result follows from them. */
  lemma CompletesWithoutTimeout(signal: Signal, results: seq<bool>, first: bool, second: bool)
    ensures
      var run := [Requested(signal)] + Settles(results) + [FlushSettled(first)] + [FlushSettled(second)];
      var good := first && second && false !in results;
      After(run, |results|).resolutions ==
      [if good then Resolution(signal, Completed, 0) else Resolution(signal, Failed, 1)]
  {
    hide After, Inv;
    var settled := [Requested(signal)] + Settles(results);
    TasksSettle(signal, results, |results|);
    AfterOneMore(settled, FlushSettled(first), |results|);
    AfterOneMore(settled + [FlushSettled(first)], FlushSettled(second), |results|);
    Reachable(settled, |results|);
    FlushesResolve(After(settled, |results|), first, second, |results|);
  }

  lemma FlushesResolve(s: State, first: bool, second: bool, count: nat)
    requires Inv(s, count) && s.cleanup == FirstFlush && s.signal.Some?
    ensures SettleFlush(SettleFlush(s, first), second).resolutions ==
      [if first && second && AllSucceeded(s.tasks) then Resolution(s.signal.value, Completed, 0)
       else Resolution(s.signal.value, Failed, 1)]
  {
    FlushKeepsInv(s, first, count);
    FlushKeepsInv(SettleFlush(s, first), second, count);
    assert SettleFlush(s, first).flushes == [first];
    assert SettleFlush(SettleFlush(s, first), second).flushes == [first, second];
  }

  // ---------- With a timeout ----------

  /** How far the forced stop has come. */
  function Progress(force: Force): nat {
    match force
    case Idle => 0
    case Stopping => 1
    case Flushing => 2
    case Stopped => 3
  }

  /** Once forced, a step never takes the stop back, and the callback it waits for takes it on. */
  lemma ForceAdvances(s: State, e: Event, count: nat)
    requires Inv(s, count) && s.phase == Forced
    ensures var t := Step(s, e, count);
      && t.phase == Forced && t.signal == s.signal && Progress(t.force) >= Progress(s.force)
      && (e.StopSettled? ==> Progress(t.force) >= 2)
      && (e.ForcedFlushSettled? && Progress(s.force) >= 2 ==> Progress(t.force) == 3)
  {
  }

  lemma {:induction false} ForcedLater(run: seq<Event>, count: nat, i: nat, n: nat)
    requires i <= n <= |run| && After(run[..i], count).phase == Forced
    ensures var s, t := After(run[..i], count), After(run[..n], count);
      t.phase == Forced && t.signal == s.signal && Progress(t.force) >= Progress(s.force)
    decreases n
  {
    hide Step, Inv;
    if i < n {
      ForcedLater(run, count, i, n - 1);
      Reachable(run[..n - 1], count);
      AfterNext(run, count, n - 1);
      ForceAdvances(After(run[..n - 1], count), run[n - 1], count);
    }
  }

  lemma AfterNext(run: seq<Event>, count: nat, i: nat)
    requires i < |run|
    ensures After(run[..i + 1], count) == Step(After(run[..i], count), run[i], count)
  {
    hide Step;
    assert run[..i + 1][..i] == run[..i];
  }

  /**
   After a timeout the forced stop alone resolves the completion: in any run in
   which its two callbacks settle, whatever else happens before, between and after.
   */
  lemma TimeoutResolves(run: seq<Event>, count: nat, timer: nat, stop: nat, flush: nat, n: nat)
    requires timer < stop < flush < n <= |run|
    requires After(run[..timer], count).phase == ShuttingDown && run[timer] == TimerFired
    requires run[stop].StopSettled? && run[flush].ForcedFlushSettled?
    ensures var signal := After(run[..timer], count).signal;
      signal.Some? && After(run[..n], count).resolutions == [Resolution(signal.value, TimedOut, 1)]
  {
    hide After, Inv;
    TimerForces(run, count, timer);
    SettlesLater(run, count, timer + 1, stop);
    SettlesLater(run, count, stop + 1, flush);
    ForcedLater(run, count, flush + 1, n);
    Reachable(run[..n], count);
    StoppedHasResolved(After(run[..n], count), count);
  }

  lemma TimerForces(run: seq<Event>, count: nat, timer: nat)
    requires timer < |run| && After(run[..timer], count).phase == ShuttingDown && run[timer] == TimerFired
    ensures var s, t := After(run[..timer], count), After(run[..timer + 1], count);
      s.signal.Some? && t.phase == Forced && t.signal == s.signal
  {
    Reachable(run[..timer], count);
    AfterNext(run, count, timer);
  }

  /** Call `j` of a run that was forced before takes the stop on if it settles what the stop waits for. */
  lemma SettlesLater(run: seq<Event>, count: nat, i: nat, j: nat)
    requires i <= j < |run| && After(run[..i], count).phase == Forced
    ensures var s, t := After(run[..i], count), After(run[..j + 1], count);
      && t.phase == Forced && t.signal == s.signal
      && (run[j].StopSettled? ==> Progress(t.force) >= 2)
      && (run[j].ForcedFlushSettled? && Progress(s.force) >= 2 ==> t.force == Stopped)
  {
    hide Step, After, Inv;
    ForcedLater(run, count, i, j);
    Reachable(run[..j], count);
    AfterNext(run, count, j);
    ForceAdvances(After(run[..j], count), run[j], count);
  }

  lemma StoppedHasResolved(s: State, count: nat)
    requires Inv(s, count) && s.phase == Forced && s.force == Stopped
    ensures s.signal.Some? && s.resolutions == [Resolution(s.signal.value, TimedOut, 1)]
  {
  }

  // ---------- Tasks after a timeout ----------

  /** A task starts after the timeout exactly when the one then pending fails and is not the last. */
  lemma StartsAfterTimeout(s: State, e: Event, count: nat)
    requires Inv(s, count) && s.phase == Forced
    ensures (exists task :: Started(task) in Step(s, e, count).tasks[|s.tasks|..]) <==>
            e == TaskSettled(false) && s.cleanup.AwaitingTask? && s.cleanup.task + 1 < count
  {
    var t := Step(s, e, count);
    if e == TaskSettled(false) && s.cleanup.AwaitingTask? && s.cleanup.task + 1 < count {
      assert t.tasks[|s.tasks|..][1] == Started(s.cleanup.task + 1);
    } else if e.TaskSettled? && s.cleanup.AwaitingTask? {
      assert t.tasks[|s.tasks|..] == [Settled(s.cleanup.task, e.ok)];
    }
  }

  /** It does happen: two tasks, the timer fires while the first is pending, and then that one fails. */
  lemma TaskAfterTimeoutHappens()
    ensures var run := [Requested(SIGTERM), TimerFired, TaskSettled(false)];
      After(run[..2], 2).phase == Forced && After(run, 2).tasks == [Started(0), Settled(0, false), Started(1)]
  {
    var a, b, c := Requested(SIGTERM), TimerFired, TaskSettled(false);
    AfterOneMore([], a, 2);
    AfterOneMore([a], b, 2);
    AfterOneMore([a, b], c, 2);
    assert [a, b, c][..2] == [a, b];
  }

  lemma AfterOneMore(run: seq<Event>, e: Event, count: nat)
    ensures After(run + [e], count) == Step(After(run, count), e, count)
  {
    assert (run + [e])[..|run|] == run;
  }
}
