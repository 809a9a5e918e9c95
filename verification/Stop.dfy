/** The deadlines of one stop request (stop.go, lifecycle.go). */
module Stop {

  /** A validated policy never drains for a negative time; a negative timeout kills at once. */
  datatype Policy = Policy(drain: nat, timeout: int, catchable: bool)

  function Grace(p: Policy): nat {
    if p.timeout < 0 then 0 else p.timeout
  }

  datatype Deadlines = Deadlines(requestAt: int, killAt: int, requested: bool)

  /** When a caller asking now would have the worker killed. */
  function OwnBound(p: Policy, now: int): int {
    now + p.drain + Grace(p)
  }

  // newStopRequest
  function NewDeadlines(p: Policy, now: int): Deadlines {
    Deadlines(now + p.drain, OwnBound(p, now), false)
  }

  /**
    stopBeforeStartLocked: the request is due at once, by a clock read again
    after the deadlines were computed.
  */
  function DueDeadlines(p: Policy, now: int, again: int): Deadlines {
    NewDeadlines(p, now).(requestAt := again, requested := true)
  }

  function Shortened(d: Deadlines, p: Policy, now: int): Deadlines {
    var requestAt := if d.requested || now + p.drain >= d.requestAt then d.requestAt else now + p.drain;
    var killAt := requestAt + Grace(p);
    d.(requestAt := requestAt, killAt := if killAt < d.killAt then killAt else d.killAt)
  }

  /** The stop as the code keeps it; wake tells the watcher that a deadline moved. */
  class StopRequest {
    var requestAt: int
    var killAt: int
    var requested: bool
    var wake: bool

    ghost function State(): Deadlines
      reads this
    {
      Deadlines(requestAt, killAt, requested)
    }

    constructor (p: Policy, now: int)
      ensures State() == NewDeadlines(p, now) && !wake
    {
      requestAt := now + p.drain;
      killAt := now + p.drain + (if p.timeout < 0 then 0 else p.timeout);
      requested, wake := false, false;
    }

    method Shorten(p: Policy, now: int)
      modifies this
      ensures State() == Shortened(old(State()), p, now)
      ensures wake <==> old(wake) || State() != old(State())
    {
      var due := now + p.drain;
      if requested || due >= requestAt {
        due := requestAt;
      }
      var kill := due + (if p.timeout < 0 then 0 else p.timeout);
      var changed := false;
      if due < requestAt {
        requestAt, changed := due, true;
      }
      if kill < killAt {
        killAt, changed := kill, true;
      }
      if changed {
        wake := true;
      }
    }
  }

  /**
    What a later request does to the deadlines: the request comes at the earlier
    of its time and the new caller's, unless it has come already, and the kill at
    the earlier of its time and the new grace after the request.
  */
  lemma ShortenedFacts(d: Deadlines, p: Policy, now: int)
    ensures var n, grace := Shortened(d, p, now), if p.timeout < 0 then 0 else p.timeout;
      && n.requestAt == (if d.requested || d.requestAt <= now + p.drain then d.requestAt else now + p.drain)
      && n.killAt <= n.requestAt + grace && (n.killAt == d.killAt || n.killAt == n.requestAt + grace)
      && n.requestAt <= d.requestAt && n.killAt <= d.killAt
      && n.requested == d.requested && (d.requested ==> n.requestAt == d.requestAt)
      && (d.requestAt <= d.killAt ==> n.requestAt <= n.killAt)
      && (d.requested && d.requestAt > d.killAt ==> n.requestAt > n.killAt)
      && ((d.requested ==> d.requestAt <= now) ==> n.killAt <= OwnBound(p, now))
  {
  }

  /** The deadlines are in order exactly when the second clock reading came before the kill was due. */
  lemma DueInOrder(p: Policy, now: int, again: int)
    ensures DueDeadlines(p, now, again).requestAt <= DueDeadlines(p, now, again).killAt <==> again - now <= p.drain + Grace(p)
  {
  }

  /** They are not always: with nothing to drain and no grace, any tick between the readings is too late. */
  lemma DueOutOfOrder()
    ensures var d := DueDeadlines(Policy(0, -1, false), 0, 1); d.requestAt > d.killAt
  {
  }
}
