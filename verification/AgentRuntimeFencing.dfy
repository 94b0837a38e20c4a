/** Fencing over whole runs: a refused claim stays refused, and a new lease refuses every earlier one. */
module AgentRuntimeFencing {
  import opened AgentRuntimeTypes
  import opened AgentRuntimeSpec
  import opened AgentRuntimeRuns

  /** The claim's token was handed out by one of the first `i` calls. */
  ghost predicate Issued(run: seq<Timed>, i: nat, c: Claim)
    requires i <= |run|
  {
    exists m :: 0 <= m < i && run[m].event.Leasing? && run[m].event.token == c.claimToken
  }

  /** The claim a worker holds after being granted a lease on entry `k`. */
  function ClaimOn(k: Key, r: Runtime): Claim
    requires r.lease.Some?
  {
    Claim(k.tenantId, k.runtimeId, r.executionVersion, r.workUnitVersion,
          r.lease.value.workerId, r.lease.value.claimToken)
  }

  /** Call `i` of the run grants a lease on entry `k`. */
  ghost predicate Grants(run: seq<Timed>, identify: Identify, i: nat, k: Key)
    requires i < |run|
  {
    var s, t := After(run[..i], identify), After(run[..i + 1], identify);
    run[i].event.Leasing? && k in s.runtimes && k in t.runtimes &&
    t.runtimes[k].status == Leased && t.runtimes[k] != s.runtimes[k]
  }

  lemma ActKeepsRefusal(r: Runtime, r': Runtime, e: Event, c: Claim, t: int, now: int)
    requires Acts(r, r', e, now) && t <= now && !Holds(r, c, t)
    requires e.Leasing? ==> e.token != c.claimToken
    ensures !Holds(r', c, t)
  {
  }

  lemma CallKeepsRefusal(s: State, identify: Identify, e: Event, c: Claim, t: int, now: int)
    requires WellFormed(s) && t <= now && !Fenced(s, c, t)
    requires e.Leasing? ==> e.token != c.claimToken
    ensures !Fenced(Apply(s, identify, e, now), c, t)
  {
    var k := c.Target();
    var s' := Apply(s, identify, e, now);
    if k in s'.runtimes {
      EntryAfter(s, identify, e, now, k);
      if k in s.runtimes && s'.runtimes[k] != s.runtimes[k] {
        ActKeepsRefusal(s.runtimes[k], s'.runtimes[k], e, c, t, now);
      }
    }
  }

  /**
   Once an issued claim is refused - because it expired, was released, leased
   again, superseded or collected - it is refused after every later call and at
   every later time.
   */
  lemma {:induction false} RefusedForever(run: seq<Timed>, identify: Identify, i: nat, j: nat, c: Claim, t: int)
    requires i <= j <= |run| && TokensAreFresh(run) && Issued(run, i, c)
    requires forall m :: i <= m < j ==> t <= run[m].now
    requires !Fenced(After(run[..i], identify), c, t)
    ensures forall t' :: t <= t' ==> !Fenced(After(run[..j], identify), c, t')
    decreases j - i
  {
    hide Apply, After, Fenced;
    if i == j {
      RefusedLater(After(run[..i], identify), c, t);
    } else {
      var m :| 0 <= m < i && run[m].event.Leasing? && run[m].event.token == c.claimToken;
      AfterNext(run, identify, i);
      CallKeepsRefusal(After(run[..i], identify), identify, run[i].event, c, t, run[i].now);
      assert Issued(run, i + 1, c);
      RefusedForever(run, identify, i + 1, j, c, t);
    }
  }

  /** A claim that is refused does not pass later in the same state. */
  lemma RefusedLater(s: State, c: Claim, t: int)
    requires !Fenced(s, c, t)
    ensures forall t' :: t <= t' ==> !Fenced(s, c, t')
  {
  }

  /**
   Mutual exclusion: when call `i` grants a lease on a runtime, every other
   claim on that runtime issued up to then is refused from then on, at any time.
   At most one claim per runtime can pass the fence.
   */
  lemma GrantRefusesOthers(run: seq<Timed>, identify: Identify, i: nat, j: nat, k: Key, c: Claim, t: int)
    requires i < j <= |run| && TokensAreFresh(run) && ClockAdvances(run) && Grants(run, identify, i, k)
    requires Issued(run, i, c) && c.Target() == k && run[i].now <= t
    ensures !Fenced(After(run[..j], identify), c, t)
  {
    hide Grants, After, Fenced;
    GrantReplaces(run, identify, i, k, c, run[i].now);
    var m :| 0 <= m < i && run[m].event.Leasing? && run[m].event.token == c.claimToken;
    assert Issued(run, i + 1, c);
    RefusedForever(run, identify, i + 1, j, c, run[i].now);
  }

  /** Right after the grant no earlier claim on the runtime passes, at any time. */
  lemma GrantReplaces(run: seq<Timed>, identify: Identify, i: nat, k: Key, c: Claim, t: int)
    requires i < |run| && TokensAreFresh(run) && Grants(run, identify, i, k) && Issued(run, i, c) && c.Target() == k
    ensures !Fenced(After(run[..i + 1], identify), c, t)
  {
    hide After, Apply, WellFormed;
    AfterNext(run, identify, i);
    LeasedEntryAfter(After(run[..i], identify), identify, run[i].event, run[i].now, k);
  }

  /** At any instant the fence lets at most one claim on a runtime pass. */
  lemma OneClaimPasses(s: State, a: Claim, b: Claim, t: int)
    requires Fenced(s, a, t) && Fenced(s, b, t) && a.Target() == b.Target()
    ensures a == b
  {
  }

  /** The grant itself passes the fence until the lease runs out, and its claim was refused until then. */
  lemma GrantIsFenced(run: seq<Timed>, identify: Identify, i: nat, k: Key, t: int)
    requires i < |run|
    ensures Grants(run, identify, i, k) ==>
      var s, r := After(run[..i], identify), After(run[..i + 1], identify).runtimes[k];
      && s.runtimes[k].status == Ready
      && r.lease.Some?
      && (t < run[i].now + run[i].event.leaseMs <==>
          Fenced(After(run[..i + 1], identify), ClaimOn(k, r), t))
      && ClaimOn(k, r).claimToken == run[i].event.token
      && ClaimOn(k, r).workerId == run[i].event.workerId
  {
    hide Apply, WellFormed;
    AfterNext(run, identify, i);
    if run[i].event.Leasing? {
      LeasedEntryAfter(After(run[..i], identify), identify, run[i].event, run[i].now, k);
    }
  }

  /**
   A heartbeat that passes makes its claim pass exactly until its new expiry,
   and does not touch any other runtime.
   */
  lemma HeartbeatExtends(s: State, c: Claim, leaseMs: int, now: int, t: int, other: Claim)
    requires WellFormed(s) && Fenced(s, c, now)
    ensures var after := SendHeartbeat(s, c, leaseMs, now).0;
      && (Fenced(after, c, t) <==> t < now + leaseMs)
      && (other.Target() != c.Target() ==> (Fenced(after, other, t) <==> Fenced(s, other, t)))
      && (other.Target() == c.Target() && other != c ==> !Fenced(after, other, t))
  {
    hide WellFormed;
  }

  /** A call that ends a lease (publish or fail) gives its claim up for good. */
  lemma EndedClaimIsRefused(run: seq<Timed>, identify: Identify, i: nat, j: nat, t: int)
    requires i < j <= |run| && TokensAreFresh(run) && ClockAdvances(run)
    requires EndsLease(run[i].event) && Issued(run, i, run[i].event.claim)
    requires After(run[..i + 1], identify) != After(run[..i], identify)
    requires run[i].now <= t
    ensures !Fenced(After(run[..j], identify), run[i].event.claim, t)
  {
    hide After, Apply, Fenced, WellFormed;
    var s, e, now := After(run[..i], identify), run[i].event, run[i].now;
    var c := e.claim;
    AfterNext(run, identify, i);
    EndedClaimFails(s, identify, e, now, now);
    var m :| 0 <= m < i && run[m].event.Leasing? && run[m].event.token == c.claimToken;
    assert Issued(run, i + 1, c);
    RefusedForever(run, identify, i + 1, j, c, now);
  }

  lemma EndedClaimFails(s: State, identify: Identify, e: Event, now: int, t: int)
    requires WellFormed(s) && EndsLease(e) && Apply(s, identify, e, now) != s
    ensures !Fenced(Apply(s, identify, e, now), e.claim, t)
  {
    hide Apply;
    EndedRuntimeHasNoLease(s, identify, e, now);
  }

  lemma EndedRuntimeHasNoLease(s: State, identify: Identify, e: Event, now: int)
    requires WellFormed(s) && EndsLease(e) && Apply(s, identify, e, now) != s
    ensures var t := Apply(s, identify, e, now);
      e.claim.Target() in t.runtimes && t.runtimes[e.claim.Target()].lease.None?
  {
    match e
    case Publication(_, _, _, _, _) =>
    case Failure(_, _, _, _) =>
    case _ => assert false;
  }
}
