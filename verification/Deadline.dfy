/** Deadlines: a signal that is aborted at most once, by the timer, by asking too late, or by the parent. */
module Deadline {
  import opened Wrappers

  datatype Reason = DeadlineExceeded | FromParent(text: string)

  datatype State = State(expiresAt: int, disposed: bool, aborted: Option<Reason>)

  datatype Event = TimerFires | ParentAborts(text: string) | Asked(now: int) | Disposed

  function Remaining(expiresAt: int, now: int): (ms: nat)
    ensures ms > 0 <==> now < expiresAt
    ensures ms > 0 ==> now + ms == expiresAt
  {
    Max(0, expiresAt - now)
  }

  /** What asking at `now` throws: nothing, or the signal's reason, which may be undefined. */
  datatype Thrown = Nothing | Raised(reason: Option<Reason>)

  function Expire(s: State): State {
    if s.disposed || s.aborted.Some? then s else s.(aborted := Some(DeadlineExceeded))
  }

  function Step(s: State, e: Event): State {
    match e
    case TimerFires => Expire(s)
    case ParentAborts(text) => if s.disposed || s.aborted.Some? then s else s.(aborted := Some(FromParent(text)))
    case Asked(now) => if s.aborted.None? && now >= s.expiresAt then Expire(s) else s
    case Disposed => s.(disposed := true)
  }

  function Throws(s: State, now: int): Thrown {
    if s.aborted.Some? then Raised(s.aborted)
    else if now >= s.expiresAt then Raised(Expire(s).aborted)
    else Nothing
  }

  function After(s: State, run: seq<Event>): State {
    if run == [] then s else Step(After(s, run[..|run| - 1]), run[|run| - 1])
  }

  /** What would abort a signal that is neither aborted nor disposed. */
  function Cause(e: Event, expiresAt: int): Option<Reason> {
    match e
    case TimerFires => Some(DeadlineExceeded)
    case ParentAborts(text) => Some(FromParent(text))
    case Asked(now) => if now >= expiresAt then Some(DeadlineExceeded) else None
    case Disposed => None
  }

  /** The first cause before the deadline is disposed of, reading the run from its start. */
  function FirstCause(run: seq<Event>, expiresAt: int): Option<Reason> {
    if run == [] || run[0].Disposed? then None
    else if Cause(run[0], expiresAt).Some? then Cause(run[0], expiresAt)
    else FirstCause(run[1..], expiresAt)
  }

  lemma {:induction false} FirstCauseOfMore(run: seq<Event>, e: Event, expiresAt: int)
    ensures FirstCause(run + [e], expiresAt) ==
            if FirstCause(run, expiresAt).Some? || Disposed in run then FirstCause(run, expiresAt)
            else Cause(e, expiresAt)
  {
    if run == [] {
      assert [e][1..] == [];
    } else {
      FirstCauseOfMore(run[1..], e, expiresAt);
      assert (run + [e])[1..] == run[1..] + [e];
    }
  }

  /** The signal keeps the first reason it is given, and gets none once disposed of. */
  lemma {:induction false} FirstReasonSticks(expiresAt: int, run: seq<Event>)
    ensures After(State(expiresAt, false, None), run) == State(expiresAt, Disposed in run, FirstCause(run, expiresAt))
  {
    if run != [] {
      var front, last := run[..|run| - 1], run[|run| - 1];
      FirstReasonSticks(expiresAt, front);
      FirstCauseOfMore(front, last, expiresAt);
      assert run == front + [last];
    }
  }

  /** An event that leaves a live deadline as it is. */
  predicate ChangesNothing(e: Event, expiresAt: int) { e.Asked? && e.now < expiresAt }

  /**
   The first event of a run that changes anything decides the signal for good:
   the timer or a question at or after the deadline expires it, an aborted
   parent passes on its reason, and a disposal leaves it without one.
   */
  lemma {:induction false} ReasonExactly(expiresAt: int, run: seq<Event>, i: nat)
    requires i <= |run| && forall j :: 0 <= j < i ==> ChangesNothing(run[j], expiresAt)
    ensures var aborted := After(State(expiresAt, false, None), run).aborted;
      && (i == |run| ==> aborted == None)
      && (i < |run| && run[i].ParentAborts? ==> aborted == Some(FromParent(run[i].text)))
      && (i < |run| && (run[i] == TimerFires || (run[i].Asked? && run[i].now >= expiresAt)) ==>
            aborted == Some(DeadlineExceeded))
      && (i < |run| && run[i] == Disposed ==> aborted == None)
  {
    if run != [] {
      var last := |run| - 1;
      ReasonExactly(expiresAt, run[..last], if i <= last then i else last);
      FirstReasonSticks(expiresAt, run[..last]);
      assert i < last && run[i] == Disposed ==> Disposed in run[..last];
    }
  }

  /**
   Asking throws exactly when the signal is aborted or the time is over; the
   reason is missing exactly after an early disposal.
   */
  lemma ThrowsWhenOver(s: State, now: int)
    ensures Throws(s, now) != Nothing <==> s.aborted.Some? || now >= s.expiresAt
    ensures Throws(s, now) == Raised(None) <==> s.aborted.None? && s.disposed && now >= s.expiresAt
    ensures Throws(s, now).Raised? ==> Throws(s, now).reason == Step(s, Asked(now)).aborted
  {
  }

  /** It does happen: asking late after a disposal throws without a reason. */
  lemma DisposedThrowsUndefined(expiresAt: int, now: int)
    requires now >= expiresAt
    ensures Throws(After(State(expiresAt, false, None), [Disposed]), now) == Raised(None)
  {
    FirstReasonSticks(expiresAt, [Disposed]);
  }

  /** The deadline with its mutable flags. */
  class Timer {
    const expiresAt: int
    var disposed: bool
    var aborted: Option<Reason>

    function Model(): State
      reads this
    {
      State(expiresAt, disposed, aborted)
    }

    constructor (timeoutMs: int, now: int, parent: Option<string>)
      ensures expiresAt == now + timeoutMs
      ensures Model() == After(State(expiresAt, false, None), if parent.Some? then [ParentAborts(parent.value)] else [])
    {
      expiresAt, disposed := now + timeoutMs, false;
      aborted := if parent.Some? then Some(FromParent(parent.value)) else None;
    }

    method Fire()
      modifies this
      ensures Model() == Step(old(Model()), TimerFires)
    {
      if !disposed && aborted.None? {
        aborted := Some(DeadlineExceeded);
      }
    }

    method AbortFromParent(text: string)
      modifies this
      ensures Model() == Step(old(Model()), ParentAborts(text))
    {
      if !disposed && aborted.None? {
        aborted := Some(FromParent(text));
      }
    }

    method RemainingMs(now: int) returns (remaining: nat)
      ensures remaining == Remaining(expiresAt, now)
    {
      remaining := Max(0, expiresAt - now);
    }

    method ThrowIfExpired(now: int) returns (thrown: Thrown)
      modifies this
      ensures Model() == Step(old(Model()), Asked(now)) && thrown == old(Throws(Model(), now))
    {
      if aborted.Some? {
        return Raised(aborted);
      }
      if now >= expiresAt {
        Fire();
        return Raised(aborted);
      }
      return Nothing;
    }

    method Dispose()
      modifies this
      ensures Model() == Step(old(Model()), Disposed)
    {
      disposed := true;
    }
  }

  /** A timeout that is no positive integer is refused; a parent that is already aborted aborts the signal at once. */
  method CreateDeadline(timeoutMs: int, now: int, parent: Option<string>) returns (deadline: Option<Timer>)
    ensures deadline.Some? <==> 0 < timeoutMs <= 0x1f_ffff_ffff_ffff
    ensures deadline.Some? ==> fresh(deadline.value) && deadline.value.expiresAt == now + timeoutMs
    ensures deadline.Some? ==>
      deadline.value.Model()
      == After(State(now + timeoutMs, false, None), if parent.Some? then [ParentAborts(parent.value)] else [])
  {
    if !IsPositiveInteger(timeoutMs) {
      return None;
    }
    var timer := new Timer(timeoutMs, now, parent);
    return Some(timer);
  }
}
