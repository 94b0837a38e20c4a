/** Subscriptions to indexing events: one running stream a repository, and a bounded reconnect loop. */
module SseSubscriptions {
  import opened Wrappers
  import opened Numerals

  /** The abort switch of one subscription. */
  class Controller {
    const repository: string
    var aborted: bool

    constructor (repository: string)
      ensures this.repository == repository && !aborted
    {
      this.repository := repository;
      aborted := false;
    }
  }

  /** The table of the newest subscription of each repository. */
  class ActiveStreams {
    var active: map<string, Controller>
    /** The subscriptions that have started and not ended. */
    ghost var running: set<Controller>

    /** The table holds running subscriptions, and every one that is not aborted. */
    ghost predicate Valid()
      reads this, running
    {
      && (forall r :: r in active ==> active[r] in running && active[r].repository == r)
      && (forall c :: c in running && !c.aborted ==> c.repository in active && active[c.repository] == c)
    }

    /** Of the running subscriptions of a repository at most one is not aborted. */
    lemma AtMostOneStreams(a: Controller, b: Controller)
      requires Valid() && a in running && b in running && !a.aborted && !b.aborted
      requires a.repository == b.repository
      ensures a == b
    {
    }

    constructor ()
      ensures Valid() && active == map[] && running == {}
    {
      active, running := map[], {};
    }

    /** Starting a subscription aborts the one it replaces and no other. */
    method Subscribe(repository: string) returns (c: Controller)
      requires Valid()
      modifies this, if repository in active then {active[repository]} else {}
      ensures Valid() && fresh(c) && c.repository == repository && !c.aborted
      ensures active == old(active)[repository := c] && running == old(running) + {c}
      ensures forall d :: d in old(running) && d.repository == repository ==> d.aborted
      ensures forall d :: d in old(running) && d.repository != repository ==> d.aborted == old(d.aborted)
    {
      if repository in active {
        active[repository].aborted := true;
      }
      c := new Controller(repository);
      active := active[repository := c];
      running := running + {c};
    }

    /** The caller's signal aborts its own subscription only. */
    method Abort(c: Controller)
      requires Valid() && c in running
      modifies c
      ensures Valid() && c.aborted
    {
      c.aborted := true;
    }

    /** Ending a subscription never removes a newer one from the table. */
    method Finish(c: Controller)
      requires Valid() && c in running
      modifies this
      ensures Valid() && running == old(running) - {c}
      ensures var own := old(c.repository in active && active[c.repository] == c);
        active == old(active) - (if own then {c.repository} else {})
    {
      if c.repository in active && active[c.repository] == c {
        active := active - {c.repository};
      }
      running := running - {c};
    }
  }

  // ---------- Reconnecting ----------

  const MAX_RECONNECT_ATTEMPTS: nat := 5

  /** How one connection ended, and whether the signal was aborted while waiting after a failure. */
  datatype Connection = Consumed | AbortedDuring | Failed(retryable: bool, abortedWaiting: bool)

  function Backoff(attempt: nat): (delay: nat)
    ensures 1 <= delay <= 10_000
  {
    PowIsPositive(2, attempt);
    Min(1000 * Pow(2, attempt), 10_000)
  }

  /** A failure after which the loop connects again, if attempts are left. */
  predicate Retries(c: Connection) { c == Failed(true, false) }

  /**
   The reconnect loop: how many connections are made and the delays between
   them, when the `i`-th connection would end as `connect(i)`.
   */
  method Reconnect(connect: nat -> Connection) returns (connections: nat, delays: seq<nat>)
    ensures 1 <= connections <= MAX_RECONNECT_ATTEMPTS + 1
    ensures forall i :: 0 <= i < connections - 1 ==> Retries(connect(i))
    ensures connections <= MAX_RECONNECT_ATTEMPTS ==> !Retries(connect(connections - 1))
    ensures |delays| == connections - 1 ||
            (|delays| == connections <= MAX_RECONNECT_ATTEMPTS && connect(connections - 1) == Failed(true, true))
    ensures forall i :: 0 <= i < |delays| ==> delays[i] == Backoff(i)
  {
    connections, delays := 0, [];
    while true
      invariant connections == |delays| <= MAX_RECONNECT_ATTEMPTS
      invariant forall i :: 0 <= i < connections ==> Retries(connect(i))
      invariant forall i :: 0 <= i < |delays| ==> delays[i] == Backoff(i)
      decreases MAX_RECONNECT_ATTEMPTS - |delays|
    {
      var ended := connect(connections);
      connections := connections + 1;
      if !ended.Failed? || !ended.retryable || |delays| >= MAX_RECONNECT_ATTEMPTS {
        return;
      }
      delays := delays + [Backoff(|delays|)];
      if ended.abortedWaiting {
        return;
      }
    }
  }

  /** The delays double from a second up to ten, and there are at most five of them. */
  lemma BackoffSchedule()
    ensures Backoff(0) == 1000 && Backoff(1) == 2000 && Backoff(2) == 4000 && Backoff(3) == 8000
    ensures forall i: nat :: i >= 4 ==> Backoff(i) == 10_000
    ensures MAX_RECONNECT_ATTEMPTS == 5
  {
    assert Pow(2, 1) == 2 && Pow(2, 2) == 4 && Pow(2, 3) == 8 && Pow(2, 4) == 16;
    forall i: nat | i >= 4 ensures Backoff(i) == 10_000 {
      PowGrows(4, i);
    }
  }

  lemma {:induction false} PowGrows(i: nat, j: nat)
    requires i <= j
    ensures Pow(2, i) <= Pow(2, j)
    decreases j
  {
    if i < j {
      PowGrows(i, j - 1);
    }
  }
}
