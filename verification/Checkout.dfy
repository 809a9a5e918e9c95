/**
  One worker dedicated to one session (internal/pool/checkout.go, budget.go,
  reservation.go): the turn engine, its operations and the suspension budget.
*/
module Checkout {
  import opened Prelude
  import opened Wire

  /** Why the transport failed; the context may have ended, or the turn's own deadline. */
  datatype Failure = ContextDone | DeadlinePassed | FrameTooLarge | Broken

  /** What the worker and the rest of the program do during one turn. */
  datatype Arrival =
    | Arrives(ev: Event, maxSuspensions: Option<nat>)
    | RecvFails(why: Failure)
    | Malformed
    | Terminated

  /**
    A turn's surroundings: whether the request is rejected before it is sent
    (too deep, not encodable, too large, observer gone), whether sends fail,
    and what arrives. When nothing more arrives the context ends.
  */
  datatype Net = Net(rejected: bool, sendFails: Option<Failure>, abortFails: Option<Failure>, arrivals: seq<Arrival>)

  /** The non-Print events among what arrived. */
  ghost function Heard(arrivals: seq<Arrival>): seq<Message> {
    if arrivals == [] then []
    else
      var n := |arrivals| - 1;
      Heard(arrivals[..n]) + HeardFrom(arrivals[n])
  }

  ghost function HeardFrom(a: Arrival): seq<Message> {
    if a.Arrives? && !a.ev.Print? then [Message(a.ev, a.maxSuspensions)] else []
  }

  lemma HeardNext(arrivals: seq<Arrival>, i: nat)
    requires i < |arrivals|
    ensures Heard(arrivals[..i + 1]) == Heard(arrivals[..i]) + HeardFrom(arrivals[i])
  {
    assert arrivals[..i + 1][..i] == arrivals[..i];
  }

  datatype Outcome = Event(ev: Wire.Event) | Fails(workerLost: bool, typing: bool)

  /** The first thing of a turn that is not a Print event. */
  function FirstReal(arrivals: seq<Arrival>): Option<Arrival> {
    if arrivals == [] then None
    else if arrivals[0].Arrives? && arrivals[0].ev.Print? then FirstReal(arrivals[1..])
    else Some(arrivals[0])
  }

  lemma FirstRealNext(arrivals: seq<Arrival>, i: nat)
    requires i < |arrivals|
    ensures FirstReal(arrivals[i..]) ==
            if arrivals[i].Arrives? && arrivals[i].ev.Print? then FirstReal(arrivals[i + 1..]) else Some(arrivals[i])
  {
    assert arrivals[i..][1..] == arrivals[i + 1..];
  }

  /** The events dispatch returns rather than turning into an error. */
  predicate IsReturned(ev: Wire.Event) {
    || ev.FunctionCall? || ev.NameLookup? || ev.ResolveFutures? || ev.Ok? || ev.DumpResult?
    || (ev.OsCall? && ev.valid) || (ev.Complete? && ev.hasValue)
  }

  predicate Crosses(b: Budget, a: Arrival)
    requires a.Arrives?
  {
    var c := Observe(b, a.ev, a.maxSuspensions);
    IsSuspension(a.ev) && c.seen > c.limit
  }

  /** The event a turn has for its caller when the request goes out and the worker answers in order. */
  function Reply(net: Net, b: Budget): Option<Wire.Event> {
    var first := FirstReal(net.arrivals);
    if net.rejected || net.sendFails.Some? || first.None? || !first.value.Arrives? then None
    else if !IsReturned(first.value.ev) || Crosses(b, first.value) then None
    else Some(first.value.ev)
  }

  /** The i-th arrival is the worker's event ev, after nothing but prints. */
  ghost predicate FirstIs(arrivals: seq<Arrival>, i: nat, ev: Wire.Event) {
    && i < |arrivals| && arrivals[i].Arrives? && arrivals[i].ev == ev && !ev.Print?
    && forall j | 0 <= j < i :: arrivals[j].Arrives? && arrivals[j].ev.Print?
  }

  /** The event counts as one more suspension than the budget, or the limit it announces, allows. */
  ghost predicate OneTooMany(b: Budget, a: Arrival) {
    && a.Arrives? && (a.ev.FunctionCall? || a.ev.OsCall? || a.ev.NameLookup? || a.ev.ResolveFutures?)
    && (b.seen + 1 > b.limit || (a.maxSuspensions.Some? && b.seen + 1 > a.maxSuspensions.value))
  }

  lemma {:induction false} FirstRealAt(arrivals: seq<Arrival>, ev: Wire.Event)
    ensures FirstReal(arrivals).Some? && FirstReal(arrivals).value.Arrives? && FirstReal(arrivals).value.ev == ev
       <==> exists i: nat :: FirstIs(arrivals, i, ev) && FirstReal(arrivals) == Some(arrivals[i])
    ensures forall i: nat | FirstIs(arrivals, i, ev) :: FirstReal(arrivals) == Some(arrivals[i])
    decreases |arrivals|
  {
    if arrivals != [] && arrivals[0].Arrives? && arrivals[0].ev.Print? {
      var rest := arrivals[1..];
      FirstRealAt(rest, ev);
      forall i: nat | FirstIs(arrivals, i, ev) ensures FirstReal(arrivals) == Some(arrivals[i]) {
        assert forall j | 0 <= j < i - 1 :: rest[j] == arrivals[j + 1];
        assert FirstIs(rest, i - 1, ev);
      }
      if FirstReal(rest).Some? && FirstReal(rest).value.Arrives? && FirstReal(rest).value.ev == ev {
        var i: nat :| FirstIs(rest, i, ev) && FirstReal(rest) == Some(rest[i]);
        assert forall j | 1 <= j <= i :: arrivals[j] == rest[j - 1];
        assert FirstIs(arrivals, i + 1, ev);
      }
    } else if arrivals != [] && arrivals[0].Arrives? && arrivals[0].ev == ev {
      assert FirstIs(arrivals, 0, ev);
    }
  }

  /**
    A turn has an event for its caller exactly if its request goes out and the
    first event after any prints is that one, is one the caller is given, and
    is not a suspension too many.
  */
  lemma ReplyExactly(net: Net, b: Budget, ev: Wire.Event)
    ensures Reply(net, b) == Some(ev) <==>
      && !net.rejected && net.sendFails.None?
      && (ev.FunctionCall? || ev.NameLookup? || ev.ResolveFutures? || ev.Ok? || ev.DumpResult?
          || (ev.OsCall? && ev.valid) || (ev.Complete? && ev.hasValue))
      && exists i: nat :: FirstIs(net.arrivals, i, ev) && !OneTooMany(b, net.arrivals[i])
  {
    FirstRealAt(net.arrivals, ev);
    hide FirstReal;
  }

  const DEFAULT_MAX_SUSPENSIONS: nat := 1000

  function Tighter(limit: nat, b: Budget): (r: Budget)
    ensures r.seen == b.seen && r.limit <= b.limit && r.limit <= limit && (r.limit == limit || r.limit == b.limit)
  {
    if limit < b.limit then b.(limit := limit) else b
  }

  /**
    The log from a position on holds exactly these messages, each with the budget
    it led to, and after them the budget is now.
  */
  ghost predicate Accounted(b: Budget, from: nat, messages: seq<Message>, log: seq<Entry>, now: Budget) {
    && from <= |log| && Tallied(b, log, from)
    && Consumed(log[from..]) == messages && now == Tally(b, messages)
  }

  lemma AccountedStart(b: Budget, log: seq<Entry>, req: Request)
    ensures Accounted(b, |log|, [], log, b) && Accounted(b, |log|, [], log + [Sent(req)], b)
  {
    var sent := log + [Sent(req)];
    assert log[|log|..] == [];
    assert sent[|log|..] == [] + [Sent(req)];
    ConsumedAppend([], Sent(req));
  }

  lemma AccountedNext(b: Budget, from: nat, messages: seq<Message>, log: seq<Entry>, was: Budget, got: Entry, abort: bool)
    requires Accounted(b, from, messages, log, was) && got.Got? && got.after == Observe(was, got.ev, got.max)
    ensures
      var next := log + [got] + if abort then [Sent(AbortFeed)] else [];
      Accounted(b, from, messages + [Message(got.ev, got.max)], next, got.after)
  {
    hide Tallied, Consumed, Tally;
    var heard := messages + [Message(got.ev, got.max)];
    TalliedAppend(b, log, from, got);
    TallyAppend(b, messages, Message(got.ev, got.max));
    if abort {
      TalliedAppend(b, log + [got], from, Sent(AbortFeed));
      assert heard + [] == heard;
    } else {
      assert log + [got] + [] == log + [got];
    }
  }

  lemma AccountedFacts(b: Budget, from: nat, messages: seq<Message>, log: seq<Entry>, now: Budget)
    requires Accounted(b, from, messages, log, now)
    ensures now.limit <= b.limit && now.seen >= b.seen
  {
    TallyExact(b, messages);
  }

  /** The turn of req was answered by one event, and that event is all that was charged. */
  ghost predicate Replied(b: Budget, start: seq<Entry>, req: Request, ev: Wire.Event, log: seq<Entry>, now: Budget) {
    && |log| == |start| + 2 && log[|log| - 1].Got?
    && log == start + [Sent(req), Got(ev, log[|log| - 1].max, now)]
    && now == Observe(b, ev, log[|log| - 1].max)
  }

  /** From a position on, a suspension beyond the budget is answered by an abort, or it ended the lease. */
  ghost predicate CrossingsEnd(log: seq<Entry>, from: nat, held: bool) {
    forall i | from <= i < |log| && Over(log[i]) :: if i + 1 < |log| then log[i + 1] == Sent(AbortFeed) else !held
  }

  /**
    What an operation added to the log: exactly the events it took from the
    worker, in order, each with the budget it led to, the last being now. A
    suspension beyond the budget was aborted, or the lease is over.
  */
  ghost predicate Recorded(b: Budget, start: seq<Entry>, net: Net, log: seq<Entry>, now: Budget, held: bool) {
    && start <= log && CrossingsEnd(log, |start|, held)
    && exists used | 0 <= used <= |net.arrivals| :: Accounted(b, |start|, Heard(net.arrivals[..used]), log, now)
  }

  lemma RecordedNothing(b: Budget, log: seq<Entry>, net: Net, held: bool)
    ensures Recorded(b, log, net, log, b, held)
  {
    AccountedStart(b, log, Reset);
    assert net.arrivals[..0] == [] && Heard([]) == [];
    assert Accounted(b, |log|, Heard(net.arrivals[..0]), log, b);
  }

  lemma RecordedTurn(b: Budget, start: seq<Entry>, net: Net, used: nat, log: seq<Entry>, now: Budget, held: bool)
    requires start <= log && used <= |net.arrivals| && CrossingsEnd(log, |start|, held)
    requires Accounted(b, |start|, Heard(net.arrivals[..used]), log, now)
    ensures Recorded(b, start, net, log, now, held)
  {
  }

  lemma RecordedGivenUp(b: Budget, start: seq<Entry>, net: Net, log: seq<Entry>, now: Budget, held: bool)
    requires Recorded(b, start, net, log, now, held)
    ensures Recorded(b, start, net, log, now, false)
  {
    hide Accounted;
  }

  /** The last thing heard was an error the worker survives. */
  ghost predicate Refused(log: seq<Entry>) {
    log != [] && log[|log| - 1].Got? && (log[|log| - 1].ev.Error? || log[|log| - 1].ev.TypingError?)
  }

  /** What an operation may depend on, and what it may change. */
  datatype View = View(
    ready: bool,
    lease: bool,
    remote: bool,
    pending: Pending,
    budget: Budget,
    abortFlight: bool,
    returned: nat,
    configured: nat,
    log: seq<Entry>)

  /** How many suspensions an outcome hands to the host. */
  function Counts(r: Outcome): nat {
    if r.Event? && IsSuspension(r.ev) then 1 else 0
  }

  /**
    An operation that takes one turn for the host: nothing is sent unless it is
    allowed, the request goes out unless it is rejected or the send fails, the
    reply of a worker that answers in order is returned, and a returned
    suspension is counted.
  */
  ghost predicate Turned(v: View, allowed: bool, req: Request, net: Net, r: Outcome, w: View) {
    && (w.log == v.log || v.log + [Sent(req)] <= w.log)
    && (!(v.ready && allowed) ==> w.log == v.log && r.Fails?)
    && (v.ready && allowed && !net.rejected ==> (w.log != v.log <==> net.sendFails.None?))
    && (v.ready && allowed && !v.abortFlight && Reply(net, v.budget).Some? ==> r == Event(Reply(net, v.budget).value))
    && w.configured == v.configured && w.returned == v.returned + Counts(r) && (w.lease ==> v.lease)
    && Recorded(v.budget, v.log, net, w.log, w.budget, w.lease)
  }

  /** Dump: the state came back and neither the count nor the suspension changed; only a survivable error keeps the lease otherwise. */
  ghost predicate Dumped(v: View, net: Net, ok: bool, w: View) {
    && w.configured == v.configured && w.returned == v.returned && (w.lease ==> v.lease)
    && (!v.ready ==> !ok && w.log == v.log)
    && (w.log == v.log || v.log + [Sent(Dump)] <= w.log)
    && (ok ==> Replied(v.budget, v.log, Dump, DumpResult, w.log, w.budget) && w.budget.seen == v.budget.seen && w.pending == v.pending)
    && (!ok && w.lease && w.log != v.log ==> Refused(w.log) && (w.log[|w.log| - 1].ev.Error? ==> w.pending == v.pending))
    && (v.ready && !v.abortFlight && Reply(net, v.budget) == Some(DumpResult) ==> ok && w.lease)
    && Recorded(v.budget, v.log, net, w.log, w.budget, w.lease)
  }

  ghost predicate Installed(v: View, none: bool, valid: bool, net: Net, ok: bool, w: View) {
    && w.configured == v.configured && w.returned == v.returned && (w.lease ==> v.lease)
    && (!v.ready || v.pending != NoPending ==> !ok && w.log == v.log)
    && (w.log == v.log || (v.ready && v.pending == NoPending && valid && !none && v.log + [Sent(InstallDependencies)] <= w.log))
    && (ok && !none ==> Replied(v.budget, v.log, InstallDependencies, Ok, w.log, w.budget) && w.budget.seen == v.budget.seen)
    && (v.ready && !v.abortFlight && v.pending == NoPending && (none || (valid && Reply(net, v.budget) == Some(Ok))) ==> ok && w.lease)
    && Recorded(v.budget, v.log, net, w.log, w.budget, w.lease)
  }

  /** Restore starts the count over, unless the load fails and the session goes on as it was. */
  ghost predicate Restored(v: View, net: Net, r: Outcome, w: View) {
    && w.configured == v.configured && (w.lease ==> v.lease)
    && (!v.ready ==> r.Fails? && w.log == v.log && w.budget == v.budget)
    && w.returned == (if r.Event? then Counts(r) else v.returned)
    && (r.Event? ==> r.ev.Ok? || IsSuspension(r.ev))
    && (r.Fails? && w.lease ==> w.budget.seen == v.budget.seen)
    && (w.log == v.log || v.log + [Sent(Load)] <= w.log)
    && (var reply := Reply(net, Budget(v.budget.limit, 0));
        v.ready && !v.abortFlight && reply.Some? && (reply.value.Ok? || IsSuspension(reply.value)) ==> r == Event(reply.value) && w.lease)
    && (v.ready ==> exists now :: RestoredFrom(v, net, r, now, w))
  }

  /** The load was counted from nothing and led to now; a load that failed leaves the old count under the tighter limit. */
  ghost predicate RestoredFrom(v: View, net: Net, r: Outcome, now: Budget, w: View) {
    && Recorded(Budget(v.budget.limit, 0), v.log, net, w.log, now, w.lease)
    && (r.Event? ==> w.budget == now)
    && (r.Fails? && w.lease ==> w.budget == Tighter(now.limit, v.budget))
  }

  ghost predicate Aborted(v: View, net: Net, w: View) {
    && w.configured == v.configured && w.returned == v.returned && (w.lease ==> v.lease)
    && (w.log == v.log || (v.ready && v.pending != NoPending && v.log + [Sent(AbortFeed)] <= w.log))
    && (v.ready && v.pending != NoPending && !net.rejected ==> (w.log != v.log <==> net.sendFails.None?))
    && (v.ready && v.pending != NoPending && net.rejected ==> w.lease && w.abortFlight && w.pending == NoPending && w.log == v.log)
    && Recorded(v.budget, v.log, net, w.log, w.budget, w.lease)
  }

  ghost predicate Closed(v: View, w: View) {
    && w.configured == v.configured && w.returned == v.returned && !w.lease
    && (w.log == v.log || (!v.remote && v.log + [Sent(Reset)] <= w.log))
  }

  class Session {
    const remote: bool
    var lease: bool
    var pending: Pending
    var budget: Budget
    var inFlight: bool
    var cancelled: bool
    var abortFlight: bool
    var sent: bool
    var cwdSet: bool
    /** The wire so far, the suspensions returned since the last Restore, and the configured limit. */
    ghost var log: seq<Entry>
    ghost var returned: nat
    ghost var configured: nat

    /** What holds between operations. */
    ghost predicate Valid()
      reads this
    {
      && WireOk(log)
      && returned <= configured
      && (lease ==>
            && MaySend(log) && !Crossed(log)
            && returned <= budget.seen && budget.limit <= configured
            && (AllConform(log) && pending != NoPending ==> Outstanding(log) == pending))
    }

    /** A fresh checkout on an acquired worker, after applyLimits. */
    constructor (remote: bool, maxSuspensions: Option<nat>)
      ensures Valid() && lease && log == [] && pending == NoPending && !abortFlight && !cancelled
      ensures this.remote == remote && returned == 0 && budget.seen == 0 && !inFlight
      ensures budget.limit == configured == if maxSuspensions.Some? then maxSuspensions.value else DEFAULT_MAX_SUSPENSIONS
    {
      this.remote := remote;
      lease, pending := true, NoPending;
      budget := Budget(if maxSuspensions.Some? then maxSuspensions.value else DEFAULT_MAX_SUSPENSIONS, 0);
      inFlight, cancelled, abortFlight, sent, cwdSet := false, false, false, false, false;
      log, returned := [], 0;
      configured := if maxSuspensions.Some? then maxSuspensions.value else DEFAULT_MAX_SUSPENSIONS;
    }

    /** discard, and what Terminate does to the lease. */
    method Discard()
      modifies `lease, `pending, `inFlight
      ensures !lease && pending == NoPending && !inFlight
    {
      pending := NoPending;
      inFlight := false;
      lease := false;
    }

    /** ioFailure: every way out gives the worker up. */
    method IoFailure(why: Failure) returns (r: Outcome)
      modifies `lease, `pending, `inFlight, `cancelled
      ensures !lease && !inFlight && r.Fails?
    {
      Discard();
      if why.ContextDone? {
        cancelled := true;
      }
      r := Fails(why.DeadlinePassed? || why.Broken?, false);
    }

    method EnsureReady() returns (ok: bool)
      requires Valid()
      modifies `lease, `pending, `inFlight, `cancelled
      ensures Valid()
      ensures ok <==> !old(cancelled) && old(lease) && !old(inFlight)
      ensures ok ==> unchanged(this)
      ensures lease ==> old(lease)
    {
      if cancelled {
        cancelled := false;
        return false;
      }
      if !lease {
        return false;
      }
      if inFlight {
        Discard();
        return false;
      }
      ok := true;
    }

    /** dispatch: what an event means for the session. */
    method Dispatch(ev: Wire.Event, req: Request) returns (r: Outcome)
      modifies `lease, `pending, `inFlight
      ensures lease ==> old(lease) && inFlight == old(inFlight)
      ensures inFlight ==> old(inFlight)
      ensures r.Event? ==> r.ev == ev && lease == old(lease) && inFlight == old(inFlight)
      ensures r.Event? <==> IsReturned(ev)
      ensures IsSuspension(ev) && lease ==> r == Event(ev) && pending == Suspended(ev)
      ensures r.Event? && IsSuspension(ev) ==> pending == Suspended(ev)
      ensures ev.OsCall? && !ev.valid ==> !lease && r.Fails?
      ensures (ev.Complete? || ev.TypingError? || (ev.Error? && req != Dump)) ==> pending == NoPending
      ensures (ev.Ok? || ev.DumpResult? || (ev.Error? && req == Dump && lease)) ==> pending == old(pending)
      ensures ev.FatalError? || ev.Shutdown? || ev.Print? || ev.Unknown? ==> !lease && r.Fails?
      ensures r.Fails? && r.workerLost ==> !lease
      ensures r.Fails? && r.typing ==> ev.TypingError?
      ensures ev.Error? || ev.TypingError? ==> r.Fails?
      ensures r.Fails? && lease ==> ev.Error? || ev.TypingError?
    {
      match ev {
        case FunctionCall(_, _) =>
          pending := Suspended(ev);
          return Event(ev);
        case OsCall(_, valid) =>
          if !valid {
            Discard();
            return Fails(false, false);
          }
          pending := Suspended(ev);
          return Event(ev);
        case NameLookup =>
          pending := Suspended(ev);
          return Event(ev);
        case ResolveFutures =>
          pending := Suspended(ev);
          return Event(ev);
        case Complete(hasValue) =>
          pending := NoPending;
          if !hasValue {
            Discard();
            return Fails(false, false);
          }
          return Event(ev);
        case Error(hasException) =>
          if req != Dump {
            pending := NoPending;
          }
          if !hasException {
            Discard();
          }
          return Fails(false, false);
        case TypingError =>
          pending := NoPending;
          return Fails(false, true);
        case Ok => return Event(ev);
        case DumpResult => return Event(ev);
        case FatalError =>
          Discard();
          return Fails(true, false);
        case Shutdown =>
          Discard();
          return Fails(remote, false);
        case _ =>
          Discard();
          return Fails(false, false);
      }
    }

    ghost function Seen(): View
      reads this
    {
      View(Ready(), lease, remote, pending, budget, abortFlight, returned, configured, log)
    }

    lemma ReplySent(net: Net, b: Budget)
      ensures Reply(net, b).Some? ==> !net.rejected && net.sendFails.None?
    {
    }

    lemma ReplyFirst(net: Net, b: Budget)
      requires Reply(net, b).Some?
      ensures var first := FirstReal(net.arrivals);
        && first.Some? && first.value.Arrives? && IsReturned(first.value.ev) && !first.value.ev.Print?
        && Reply(net, b) == Some(first.value.ev)
        && !Over(Got(first.value.ev, first.value.maxSuspensions, Observe(b, first.value.ev, first.value.maxSuspensions)))
    {
    }

    /** ensureReady lets the operation through. */
    ghost predicate Ready()
      reads this
    {
      !cancelled && lease && !inFlight
    }

    /** What an operation must have arranged before its turn. */
    ghost predicate MayTurn(req: Request)
      reads this
    {
      && Valid()
      && (IsResume(req) ==> Answers(req, pending))
      && (req.Load? || req.AbortFeed? ==> pending == NoPending)
      && (req.AbortFeed? ==> abortFlight)
    }

    /** Between a send and its reply; start is the wire before the turn. */
    ghost predicate Waiting(start: seq<Entry>, req: Request)
      reads this
    {
      && Asked(start, req, log, abortFlight) && inFlight && sent && !cancelled
      && (req.Load? ==> pending == NoPending)
      && (AllConform(start) && pending != NoPending ==> Outstanding(start) == pending)
      && returned <= configured
      && (lease ==> returned <= budget.seen && budget.limit <= configured)
    }

    /**
      The turn of req is over: one event was returned and only it was charged, or
      the turn failed. A failed turn keeps the lease only on an error the worker
      survives.
    */
    ghost predicate Ended(start: seq<Entry>, req: Request, b: Budget, p: Pending, r: Outcome)
      reads this
    {
      && Valid()
      && (r.Event? ==>
            && Replied(b, start, req, r.ev, log, budget) && !inFlight && !abortFlight && !cancelled
            && (IsSuspension(r.ev) ==> pending == Suspended(r.ev) && b.seen < budget.seen <= budget.limit)
            && (r.ev.Ok? || r.ev.DumpResult? ==> pending == p))
      && (r.Fails? && r.workerLost ==> !lease)
      && (r.Fails? && lease ==> Refused(log) && (req == Dump && log[|log| - 1].ev.Error? ==> pending == p))
      && (Crossed(log) ==> !lease)
    }

    lemma BeginTurn(req: Request)
      requires MayTurn(req) && lease
      ensures Asked(log, req, log + [Sent(req)], abortFlight)
    {
      hide WireOk, AllConform, Outstanding;
      AskedFirst(log, req, abortFlight);
    }

    /** The event that answers the turn, already on the log. */
    method Conclude(ev: Wire.Event, req: Request, ghost start: seq<Entry>, ghost b: Budget, ghost asked: seq<Entry>, ghost max: Option<nat>)
      returns (r: Outcome)
      requires WireOk(log) && MaySend(log) && !Crossed(log) && !abortFlight && !cancelled && log == asked + [Got(ev, max, budget)]
      requires IsReturned(ev) ==> asked == start + [Sent(req)] && budget == Observe(b, ev, max) && (IsSuspension(ev) ==> budget.seen <= budget.limit)
      requires returned <= configured && (lease ==> returned <= budget.seen && budget.limit <= configured)
      requires AllConform(log) && IsSuspension(ev) ==> Outstanding(log) == Suspended(ev)
      requires AllConform(log) && pending != NoPending && (ev.Ok? || ev.DumpResult? || (ev.Error? && req == Dump)) ==>
        Outstanding(log) == pending
      modifies `lease, `pending, `inFlight
      ensures Ended(start, req, b, old(pending), r)
      ensures !inFlight && (lease ==> old(lease))
      ensures if IsReturned(ev) then r == Event(ev) && lease == old(lease) else r.Fails?
    {
      hide WireOk, AllConform, Outstanding, MaySend, Crossed, Replied, Refused;
      inFlight := false;
      r := Dispatch(ev, req);
      EndTurn(b, start, req, ev, max, asked, log, budget);
    }

    /** A suspension beyond the budget, already on the log: it is aborted, or the lease is over. */
    method Exceed(ev: Wire.Event, req: Request, abortFails: Option<Failure>, ghost start: seq<Entry>, ghost asked: seq<Entry>, ghost got: Entry)
      returns (done: bool, r: Outcome)
      requires Asked(start, req, asked, false) && Over(got) && got.ev == ev && log == asked + [got] && WireOk(log) && returned <= configured
      modifies `lease, `pending, `inFlight, `cancelled, `abortFlight, `log
      ensures !done <==> !(ev.OsCall? && !ev.valid) && abortFails.None?
      ensures log == old(log) + if done then [] else [Sent(AbortFeed)]
      ensures done ==> !lease && r.Fails? && WireOk(log) && abortFlight == old(abortFlight)
      ensures !done ==> abortFlight && unchanged(`lease, `pending, `inFlight, `cancelled) && Asked(start, req, log, true)
    {
      hide WireOk, AllConform, Outstanding, MaySend, Crossed, Asked;
      done, r := true, Fails(false, false);
      if ev.OsCall? && !ev.valid {
        r := Dispatch(ev, req);
        return;
      }
      if abortFails.Some? {
        r := IoFailure(abortFails.value);
        return;
      }
      AskedAbort(start, req, asked, got);
      log := log + [Sent(AbortFeed)];
      abortFlight := true;
      done := false;
    }

    /**
      One non-Print event, recorded with the budget after it. A suspension
      beyond the budget is aborted and the turn waits again, or the lease is over.
    */
    method Consume(ev: Wire.Event, max: Option<nat>, req: Request, abortFails: Option<Failure>, ghost start: seq<Entry>, ghost b: Budget)
      returns (done: bool, r: Outcome)
      requires Waiting(start, req) && (abortFlight || (log == start + [Sent(req)] && budget == b))
      modifies `lease, `pending, `inFlight, `cancelled, `abortFlight, `budget, `log
      ensures budget == Observe(old(budget), ev, max)
      ensures log == old(log) + [Got(ev, max, budget)] + if done then [] else [Sent(AbortFeed)]
      ensures !done <==> !old(abortFlight) && Over(Got(ev, max, budget)) && !(ev.OsCall? && !ev.valid) && abortFails.None?
      ensures done && Over(Got(ev, max, budget)) ==> !lease && r.Fails?
      ensures lease ==> old(lease)
      ensures done ==> Ended(start, req, b, old(pending), r)
      ensures !old(abortFlight) && IsReturned(ev) && !Over(Got(ev, max, budget)) ==> done && r == Event(ev) && lease == old(lease)
      ensures !done ==> Waiting(start, req) && abortFlight && unchanged(`pending, `lease)
    {
      hide WireOk, AllConform, Outstanding, MaySend, Crossed, Asked, Ended;
      budget := Observe(budget, ev, max);
      ghost var asked, got := log, Got(ev, max, budget);
      AskedGot(start, req, asked, abortFlight, got);
      log := log + [got];
      if AllConform(log) {
        AskedPending(start, req, asked, abortFlight, got, pending);
      }
      if abortFlight {
        abortFlight := false;
        if !EndsAbort(ev) {
          Discard();
          done, r := true, Fails(false, false);
          GivenUp(start, req, b, old(pending), r);
          return;
        }
      } else if IsSuspension(ev) && budget.seen > budget.limit {
        done, r := Exceed(ev, req, abortFails, start, asked, got);
        if done {
          GivenUp(start, req, b, old(pending), r);
        }
        return;
      }
      done := true;
      r := Conclude(ev, req, start, b, asked, max);
    }

    lemma FirstRealEmpty()
      ensures FirstReal([]) == None && Heard([]) == []
    {
    }

    /** The receive loop of turn. */
    method Await(req: Request, net: Net, ghost start: seq<Entry>) returns (r: Outcome, ghost used: nat)
      requires Waiting(start, req) && log == start + [Sent(req)]
      modifies `lease, `pending, `inFlight, `cancelled, `abortFlight, `budget, `log
      ensures Ended(start, req, old(budget), old(pending), r)
      ensures start + [Sent(req)] <= log && (lease ==> old(lease))
      ensures used <= |net.arrivals| && Accounted(old(budget), |start|, Heard(net.arrivals[..used]), log, budget)
      ensures !old(abortFlight) && Reply(net, old(budget)).Some? ==>
        r == Event(Reply(net, old(budget)).value) && lease == old(lease)
    {
      hide *;
      used := 0;
      var i := 0;
      ghost var replies := !abortFlight && Reply(net, budget).Some?;
      if replies {
        ReplyFirst(net, budget);
      }
      ghost var untouched, asked := true, log;
      assert net.arrivals[0..] == net.arrivals && net.arrivals[..0] == [];
      FirstRealEmpty();
      AccountedStart(budget, start, req);
      while true
        invariant 0 <= i == used <= |net.arrivals|
        invariant Waiting(start, req) && (lease ==> old(lease)) && pending == old(pending)
        invariant abortFlight || (log == asked && budget == old(budget))
        invariant Accounted(old(budget), |start|, Heard(net.arrivals[..used]), log, budget)
        invariant untouched ==>
            && FirstReal(net.arrivals[i..]) == FirstReal(net.arrivals)
            && log == asked && budget == old(budget) && abortFlight == old(abortFlight) && lease == old(lease)
        invariant replies ==> untouched
        decreases |net.arrivals| - i
      {
        WaitingOk(start, req);
        if i == |net.arrivals| {
          assert net.arrivals[i..] == [];
          r := IoFailure(ContextDone);
          GivenUp(start, req, old(budget), old(pending), r);
          return;
        }
        var a := net.arrivals[i];
        HeardNext(net.arrivals, i);
        FirstRealNext(net.arrivals, i);
        i, used := i + 1, used + 1;
        if a.Arrives? && !a.ev.Print? {
          ghost var was, before, heard := budget, log, Heard(net.arrivals[..used - 1]);
          HeardOne(a);
          var done;
          done, r := Consume(a.ev, a.maxSuspensions, req, net.abortFails, start, old(budget));
          AccountedNext(old(budget), |start|, heard, before, was, Got(a.ev, a.maxSuspensions, budget), !done);
          if done {
            return;
          }
          untouched := false;
        } else {
          HeardNone(a, Heard(net.arrivals[..used - 1]));
          if a.Terminated? {
            Lose(start, req);
            untouched := false;
          } else if a.RecvFails? {
            r := IoFailure(a.why);
            GivenUp(start, req, old(budget), old(pending), r);
            return;
          } else if a.Malformed? {
            Discard();
            r := Fails(false, false);
            GivenUp(start, req, old(budget), old(pending), r);
            return;
          }
        }
      }
    }

    /** Another goroutine terminates the worker while the turn waits. */
    method Lose(ghost start: seq<Entry>, ghost req: Request)
      requires Waiting(start, req)
      modifies `lease
      ensures Waiting(start, req) && !lease
    {
      lease := false;
    }

    lemma HeardOne(a: Arrival)
      requires a.Arrives? && !a.ev.Print?
      ensures HeardFrom(a) == [Message(a.ev, a.maxSuspensions)]
    {
    }

    lemma HeardNone(a: Arrival, heard: seq<Message>)
      requires !(a.Arrives? && !a.ev.Print?)
      ensures heard + HeardFrom(a) == heard
    {
    }

    lemma WaitingOk(start: seq<Entry>, req: Request)
      requires Waiting(start, req)
      ensures WireOk(log) && returned <= configured && start + [Sent(req)] <= log && !Crossed(log)
    {
    }

    /** The turn ends without an event and without the worker. */
    lemma GivenUp(start: seq<Entry>, req: Request, b: Budget, p: Pending, r: Outcome)
      requires WireOk(log) && returned <= configured && !lease && r.Fails?
      ensures Ended(start, req, b, p, r)
    {
    }

    lemma EndTurn(b: Budget, start: seq<Entry>, req: Request, ev: Wire.Event, max: Option<nat>, before: seq<Entry>, log: seq<Entry>, now: Budget)
      requires log == before + [Got(ev, max, now)]
      ensures now == Observe(b, ev, max) && IsSuspension(ev) ==> now.seen > b.seen
      ensures before == start + [Sent(req)] && now == Observe(b, ev, max) ==> Replied(b, start, req, ev, log, now)
      ensures ev.Error? || ev.TypingError? ==> Refused(log)
      ensures log != [] && log[|log| - 1] == Got(ev, max, now) && (Crossed(log) <==> Over(log[|log| - 1]))
    {
      if before == start + [Sent(req)] {
        assert log == start + [Sent(req), Got(ev, max, now)];
      }
    }

    /**
      turn: one request and the one event that answers it. Print events are
      passed over, a suspension beyond the budget is followed by an abort or the
      end of the lease, and a request whose answer is not consumed ends the
      lease. The log records exactly the events that were taken from the worker,
      each with the budget it led to.
    */
    method Turn(req: Request, net: Net) returns (r: Outcome, ghost used: nat)
      requires MayTurn(req)
      modifies `lease, `pending, `inFlight, `cancelled, `abortFlight, `sent, `budget, `log
      ensures Valid() && (lease ==> old(lease))
      ensures log == old(log) ==> r.Fails? && budget == old(budget)
      ensures log != old(log) ==> Ended(old(log), req, old(budget), old(pending), r) && old(log) + [Sent(req)] <= log && sent
      ensures r.Fails? && r.workerLost ==> !lease
      ensures used <= |net.arrivals| && Accounted(old(budget), |old(log)|, Heard(net.arrivals[..used]), log, budget)
      ensures budget.limit <= old(budget.limit) && budget.seen >= old(budget.seen)
      ensures CrossingsEnd(log, |old(log)|, lease)
      ensures Recorded(old(budget), old(log), net, log, budget, lease)
      ensures net.rejected && old(Ready()) ==> unchanged(this) && r == Fails(false, false)
      ensures old(Ready()) && !net.rejected ==> (log != old(log) <==> net.sendFails.None?)
      ensures !old(Ready()) ==> log == old(log)
      ensures old(Ready() && !abortFlight) && Reply(net, old(budget)).Some? ==>
        r == Event(Reply(net, old(budget)).value) && lease
    {
      hide WireOk, AllConform, Outstanding, MaySend, Asked, Heard, Reply, Over, Accounted, Ended, CrossingsEnd, Crossed, Recorded;
      used := 0;
      r := Fails(false, false);
      FirstRealEmpty();
      assert net.arrivals[..0] == [];
      ReplySent(net, budget);
      AccountedStart(budget, log, req);
      Crossings(log, |log|, lease);
      var ready := EnsureReady();
      if !ready || net.rejected {
        Crossings(log, |log|, lease);
        RecordedNothing(budget, log, net, lease);
        return;
      }
      inFlight := true;
      sent := false;
      if net.sendFails.Some? {
        r := IoFailure(net.sendFails.value);
        Crossings(log, |log|, lease);
        RecordedNothing(budget, log, net, lease);
        return;
      }
      sent := true;
      ghost var start := log;
      BeginTurn(req);
      log := log + [Sent(req)];
      r, used := Await(req, net, start);
      AccountedFacts(old(budget), |start|, Heard(net.arrivals[..used]), log, budget);
      EndedOk(start, req, old(budget), old(pending), r);
      Crossings(log, |start|, lease);
      RecordedTurn(old(budget), start, net, used, log, budget, lease);
    }

    lemma EndedOk(start: seq<Entry>, req: Request, b: Budget, p: Pending, r: Outcome)
      requires Ended(start, req, b, p, r)
      ensures Valid() && (Crossed(log) ==> !lease) && (r.Fails? && r.workerLost ==> !lease)
    {
    }

    lemma Crossings(log: seq<Entry>, from: nat, held: bool)
      requires WireOk(log) && (from == |log| || (Crossed(log) ==> !held))
      ensures CrossingsEnd(log, from, held)
    {
      forall i | from <= i < |log| && Over(log[i]) ensures if i + 1 < |log| then log[i + 1] == Sent(AbortFeed) else !held {
        CrossingAborted(log, i);
      }
    }

    /** Hand an event to the host; suspensions are counted. */
    ghost method Return(r: Outcome)
      requires WireOk(log) && returned <= configured
      requires r.Event? && IsSuspension(r.ev) ==> returned < configured
      requires lease ==> MaySend(log) && !Crossed(log) && budget.limit <= configured
      requires lease ==> returned + (if r.Event? && IsSuspension(r.ev) then 1 else 0) <= budget.seen
      requires lease && AllConform(log) && pending != NoPending ==> Outstanding(log) == pending
      modifies `returned
      ensures Valid()
      ensures returned == old(returned) + if r.Event? && IsSuspension(r.ev) then 1 else 0
    {
      if r.Event? && IsSuspension(r.ev) {
        returned := returned + 1;
      }
    }

    /** A turn whose event goes to the host. */
    method Answer(req: Request, net: Net) returns (r: Outcome)
      requires MayTurn(req)
      modifies this
      ensures Valid() && Turned(old(Seen()), true, req, net, r, Seen())
      ensures net.rejected && old(Ready()) ==> unchanged(this) && r == Fails(false, false)
      ensures cwdSet == old(cwdSet) && (log != old(log) ==> sent)
    {
      hide WireOk, AllConform, Outstanding, MaySend, Crossed, Reply, Heard, Accounted, Over, Recorded, CrossingsEnd;
      ghost var used;
      r, used := Turn(req, net);
      Return(r);
    }

    /**
      Feed. The working directory counts as set once any turn has been sent:
      the flag is only cleared by a turn that gets as far as sending.
    */
    method Feed(validCwd: bool, net: Net) returns (r: Outcome)
      requires Valid()
      modifies this
      ensures Valid() && Turned(old(Seen()), old(pending) == NoPending && validCwd, Request.Feed, net, r, Seen())
      ensures net.rejected && old(Ready() && pending == NoPending) && validCwd ==>
        log == old(log) && cwdSet == (old(cwdSet) || old(sent))
    {
      hide WireOk, AllConform, Outstanding, MaySend, Crossed, Reply, Recorded;
      var ready := EnsureReady();
      if !ready || pending != NoPending || !validCwd {
        RecordedNothing(budget, log, net, lease);
        return Fails(false, false);
      }
      r := Answer(Request.Feed, net);
      if sent && !(r.Fails? && r.typing) {
        cwdSet := true;
      }
    }

    /** Resume: a pending call is answered under its own id. */
    method Resume(notHandled: bool, net: Net) returns (r: Outcome)
      requires Valid()
      modifies this
      ensures Valid()
      ensures old(pending).Call? ==>
        Turned(old(Seen()), notHandled ==> old(pending).os, ResumeCall(old(pending).id, notHandled), net, r, Seen())
      ensures !old(pending).Call? ==> Turned(old(Seen()), false, ResumeCall(0, notHandled), net, r, Seen())
    {
      hide WireOk, AllConform, Outstanding, MaySend, Crossed, Reply, Recorded;
      var ready := EnsureReady();
      if !ready || !pending.Call? || (notHandled && !pending.os) {
        RecordedNothing(budget, log, net, lease);
        return Fails(false, false);
      }
      r := Answer(ResumeCall(pending.id, notHandled), net);
    }

    method ResumeLookup(net: Net) returns (r: Outcome)
      requires Valid()
      modifies this
      ensures Valid() && Turned(old(Seen()), old(pending).Lookup?, ResumeNameLookup, net, r, Seen())
    {
      hide WireOk, AllConform, Outstanding, MaySend, Crossed, Reply, Recorded;
      var ready := EnsureReady();
      if !ready || !pending.Lookup? {
        RecordedNothing(budget, log, net, lease);
        return Fails(false, false);
      }
      r := Answer(ResumeNameLookup, net);
    }

    /** ResumeFutures: pending futures, or an eager call with its single result. */
    method ResumeAwaited(ids: seq<nat>, settled: bool, net: Net) returns (r: Outcome)
      requires Valid()
      modifies this
      ensures Valid()
      ensures Turned(old(Seen()), Answers(ResumeFutures(ids), old(pending)) && settled, ResumeFutures(ids), net, r, Seen())
    {
      hide WireOk, AllConform, Outstanding, MaySend, Crossed, Reply, Recorded;
      var ready := EnsureReady();
      if !ready || !Answers(ResumeFutures(ids), pending) || !settled {
        RecordedNothing(budget, log, net, lease);
        return Fails(false, false);
      }
      r := Answer(ResumeFutures(ids), net);
    }

    /** A control turn that accepts one reply and gives the worker up on any other event. */
    method Control(req: Request, expected: Wire.Event, net: Net) returns (ok: bool, r: Outcome)
      requires MayTurn(req) && !IsSuspension(expected)
      modifies this
      ensures Valid() && configured == old(configured) && returned == old(returned) && cwdSet == old(cwdSet)
      ensures ok <==> r == Event(expected)
      ensures r.Event? && !ok ==> !lease
      ensures budget.limit <= old(budget.limit) && budget.seen >= old(budget.seen)
      ensures ok ==> Replied(old(budget), old(log), req, expected, log, budget)
      ensures log != old(log) && lease && !ok ==>
        Refused(log) && (req == Dump && log[|log| - 1].ev.Error? ==> pending == old(pending))
      ensures ok && (expected.Ok? || expected.DumpResult?) ==> pending == old(pending) && !inFlight && !abortFlight && !cancelled
      ensures lease ==> old(lease)
      ensures log == old(log) || old(log) + [Sent(req)] <= log
      ensures !old(Ready()) ==> !ok && log == old(log)
      ensures old(Ready() && !abortFlight) && Reply(net, old(budget)) == Some(expected) ==> ok && lease
      ensures Recorded(old(budget), old(log), net, log, budget, lease)
    {
      hide WireOk, AllConform, Outstanding, MaySend, Crossed, Reply, Heard, Over, Recorded, Accounted, CrossingsEnd;
      ghost var used;
      r, used := Turn(req, net);
      ok := r == Event(expected);
      if r.Event? && !ok {
        RecordedGivenUp(old(budget), old(log), net, log, budget, lease);
        Discard();
      }
    }

    /**
      Dump. The state comes back and neither the count nor the suspension it is
      taken in changes; an error the worker survives leaves the suspension too,
      and any other answer costs the lease.
    */
    method DumpState(net: Net) returns (ok: bool)
      requires Valid()
      modifies this
      ensures Valid() && Dumped(old(Seen()), net, ok, Seen())
    {
      hide WireOk, AllConform, Outstanding, MaySend, Crossed, Recorded;
      var r;
      ok, r := Control(Dump, DumpResult, net);
    }

    method Install(none: bool, valid: bool, net: Net) returns (ok: bool)
      requires Valid()
      modifies this
      ensures Valid() && Installed(old(Seen()), none, valid, net, ok, Seen())
    {
      hide WireOk, AllConform, Outstanding, MaySend, Crossed, Recorded;
      var ready := EnsureReady();
      RecordedNothing(budget, log, net, lease);
      if !ready || pending != NoPending {
        return false;
      }
      if none || !valid {
        return none;
      }
      var r;
      ok, r := Control(InstallDependencies, Ok, net);
    }

    method Restore(net: Net) returns (r: Outcome)
      requires Valid()
      modifies this
      ensures Valid() && Restored(old(Seen()), net, r, Seen())
    {
      hide WireOk, AllConform, Outstanding, MaySend, Crossed, Reply, Heard, Over, Accounted, Replied, Refused, Observe, Recorded, CrossingsEnd;
      var ready := EnsureReady();
      if !ready {
        return Fails(false, false);
      }
      pending := NoPending;
      var saved := budget;
      ghost var counted := returned;
      budget := budget.(seen := 0);
      returned := 0;
      ghost var used;
      r, used := Turn(Load, net);
      ghost var now := budget;
      if r.Fails? {
        if !r.workerLost {
          budget := Tighter(budget.limit, saved);
        }
        returned := counted;
        assert RestoredFrom(old(Seen()), net, r, now, Seen());
        return;
      }
      cwdSet := true;
      if !r.ev.Ok? && !IsSuspension(r.ev) {
        RecordedGivenUp(Budget(saved.limit, 0), old(log), net, log, budget, lease);
        Discard();
        returned := counted;
        r := Fails(false, false);
        assert RestoredFrom(old(Seen()), net, r, now, Seen());
        return;
      }
      Return(r);
      assert RestoredFrom(old(Seen()), net, r, now, Seen());
    }

    /** restoreCarried: the session goes on with the count and the tighter of the two limits. */
    method RestoreCarried(carried: Budget, ghost count: nat, ghost limit: nat, cwd: bool, net: Net) returns (ok: bool)
      requires Valid() && pending == NoPending
      requires count <= carried.seen && carried.limit <= limit && count <= limit
      modifies this
      ensures Valid() && returned == count && configured == limit
      ensures ok ==> budget.seen == carried.seen && budget.limit <= carried.limit && pending == NoPending
      ensures ok ==> !inFlight && !abortFlight && !cancelled
      ensures ok ==> Replied(Tighter(old(budget).limit, carried), old(log), Load, Ok, log, budget)
      ensures Recorded(Tighter(old(budget).limit, carried), old(log), net, log, budget, lease)
      ensures lease ==> old(lease)
      ensures old(Ready() && !abortFlight) && Reply(net, Tighter(old(budget).limit, carried)) == Some(Ok) ==> ok && lease
    {
      hide WireOk, AllConform, Outstanding, MaySend, Crossed, Reply, Recorded;
      budget := Tighter(budget.limit, carried);
      returned, configured := count, limit;
      var r;
      ok, r := Control(Load, Ok, net);
      if ok {
        cwdSet := cwd;
      }
    }

    /** Finish: a healthy worker is reset and given back; either way the lease is over. */
    method Finish(net: Net)
      requires Valid()
      modifies this
      ensures Valid() && Closed(old(Seen()), Seen()) && Recorded(old(budget), old(log), net, log, budget, lease)
    {
      hide WireOk, AllConform, Outstanding, MaySend, Crossed, Recorded;
      RecordedNothing(budget, log, net, false);
      if !lease {
        cancelled := false;
        return;
      }
      if inFlight {
        Discard();
        return;
      }
      if remote {
        lease := false;
        return;
      }
      var ok, r := Control(Reset, Ok, net);
      RecordedGivenUp(old(budget), old(log), net, log, budget, lease);
      if !ok {
        Discard();
        return;
      }
      pending := NoPending;
      lease := false;
    }

    /**
      Abort. A rejected request leaves the suspension forgotten and the next
      reply, whatever was asked, read as an abort's.
    */
    method Abort(net: Net)
      requires Valid()
      modifies this
      ensures Valid() && Aborted(old(Seen()), net, Seen())
    {
      hide WireOk, AllConform, Outstanding, MaySend, Crossed, Accounted, Replied, Refused, Heard, CrossingsEnd, Recorded;
      var ready := EnsureReady();
      if !ready || pending == NoPending {
        RecordedNothing(budget, log, net, lease);
        return;
      }
      pending := NoPending;
      abortFlight := true;
      ghost var used;
      var r;
      r, used := Turn(AbortFeed, net);
      if r.Event? {
        RecordedGivenUp(old(budget), old(log), net, log, budget, lease);
        Discard();
      }
    }

    method Terminate()
      requires Valid()
      modifies this
      ensures Valid() && Closed(old(Seen()), Seen()) && log == old(log)
    {
      lease := false;
    }

    method Handoff() returns (res: Reservation?)
      requires Valid()
      modifies this
      ensures Valid() && log == old(log) && configured == old(configured) && returned == old(returned)
      ensures res != null <==> old(Ready() && pending == NoPending && remote)
      ensures if res != null then !lease else lease ==> old(lease)
      ensures res != null ==> fresh(res) && res.Valid() && res.held && res.returned == returned && res.configured == configured
      ensures res != null ==> res.budget == old(budget) && res.cwdSet == old(cwdSet)
    {
      hide WireOk, AllConform, Outstanding, MaySend, Crossed, Recorded;
      var ready := EnsureReady();
      if !ready || pending != NoPending || !remote {
        return null;
      }
      lease := false;
      res := new Reservation(budget, cwdSet, returned, configured);
    }
  }

  /** Capacity held between two workers of one session. */
  class Reservation {
    var held: bool
    const budget: Budget
    const cwdSet: bool
    ghost const returned: nat
    ghost const configured: nat

    ghost predicate Valid() {
      returned <= budget.seen && budget.limit <= configured && returned <= configured
    }

    constructor (budget: Budget, cwdSet: bool, ghost returned: nat, ghost configured: nat)
      requires returned <= budget.seen && budget.limit <= configured && returned <= configured
      ensures Valid() && held && this.budget == budget && this.cwdSet == cwdSet
      ensures this.returned == returned && this.configured == configured
    {
      held, this.budget, this.cwdSet := true, budget, cwdSet;
      this.returned, this.configured := returned, configured;
    }
  }

  /** What one attempt to bind meets. */
  datatype BindNet = BindNet(spawnFails: bool, closed: bool, max: Option<nat>, configure: Net, load: Net)

  function FreshLimit(max: Option<nat>): nat {
    if max.Some? then max.value else DEFAULT_MAX_SUSPENSIONS
  }

  /** The worker accepts the configuration and the carried state, whatever limit its first reply announces. */
  ghost predicate Binds(net: BindNet, carried: Budget) {
    && Reply(net.configure, Budget(FreshLimit(net.max), 0)) == Some(Ok)
    && forall limit: nat :: Reply(net.load, Tighter(limit, carried)) == Some(Ok)
  }

  /**
    The whole conversation with a worker that was bound: it accepted the
    configuration, counted from nothing, and then the state, counted from the
    carried budget under the tighter of the two limits.
  */
  ghost predicate Introduced(net: BindNet, carried: Budget, log: seq<Entry>, now: Budget) {
    && |log| == 4 && log[1].Got?
    && var start, first, load := Budget(FreshLimit(net.max), 0), log[..2], Tighter(log[1].after.limit, carried);
    && Replied(start, [], Configure, Ok, first, log[1].after) && Recorded(start, [], net.configure, first, log[1].after, false)
    && Replied(load, first, Load, Ok, log, now) && Recorded(load, first, net.load, log, now, false)
  }

  lemma IntroducedBy(net: BindNet, carried: Budget, first: seq<Entry>, mid: Budget, log: seq<Entry>, now: Budget, held: bool, still: bool)
    requires Replied(Budget(FreshLimit(net.max), 0), [], Configure, Ok, first, mid)
    requires Recorded(Budget(FreshLimit(net.max), 0), [], net.configure, first, mid, held)
    requires Replied(Tighter(mid.limit, carried), first, Load, Ok, log, now)
    requires Recorded(Tighter(mid.limit, carried), first, net.load, log, now, still)
    ensures Introduced(net, carried, log, now)
  {
    hide Recorded;
    assert log[..2] == first && log[1] == first[1];
    RecordedGivenUp(Budget(FreshLimit(net.max), 0), [], net.configure, first, mid, held);
    RecordedGivenUp(Tighter(mid.limit, carried), first, net.load, log, now, still);
  }

  /** One of the attempts, in an open pool, is the one whose worker is bound. */
  ghost predicate IntroducedIn(attempts: seq<BindNet>, carried: Budget, log: seq<Entry>, now: Budget) {
    exists i :: 0 <= i < |attempts| && !attempts[i].spawnFails && !attempts[i].closed && Introduced(attempts[i], carried, log, now)
  }

  /** The session on its new worker goes on with the count and no looser a limit. */
  ghost predicate Carries(res: Reservation, c: Session)
    reads c
  {
    && c.remote && c.pending == NoPending && c.returned == res.returned && c.configured == res.configured
    && c.budget.seen == res.budget.seen && c.budget.limit <= res.budget.limit
    && !c.abortFlight && (c.Ready() <==> c.lease)
  }

  /** Bind with a dumped state. A failed attempt keeps the reservation unless the pool is closed. */
  method Bind(res: Reservation, net: BindNet) returns (c: Session?)
    requires res.Valid()
    modifies res
    ensures c != null ==> old(res.held) && !res.held && fresh(c) && c.Valid() && Carries(res, c)
    ensures c != null ==> !net.spawnFails && !net.closed && Introduced(net, res.budget, c.log, c.budget)
    ensures c == null ==> res.held == (old(res.held) && (net.spawnFails || !net.closed))
    ensures old(res.held) && !net.spawnFails && !net.closed && Binds(net, res.budget) ==> c != null && c.lease
  {
    hide WireOk, AllConform, Outstanding, MaySend, Crossed, Reply, Recorded, Replied, Introduced;
    if !res.held || net.spawnFails {
      return null;
    }
    if net.closed {
      res.held := false;
      return null;
    }
    res.held := false;
    c := new Session(true, net.max);
    var ok, r := c.Control(Configure, Ok, net.configure);
    if ok {
      ghost var first, mid, held := c.log, c.budget, c.lease;
      ok := c.RestoreCarried(res.budget, res.returned, res.configured, res.cwdSet, net.load);
      if ok {
        IntroducedBy(net, res.budget, first, mid, c.log, c.budget, held, c.lease);
      }
    }
    if !ok {
      c.Discard();
      res.held := true;
      c := null;
    }
  }

  // ----- whole sessions -----

  datatype Op =
    | OpFeed(validCwd: bool, net: Net)
    | OpResume(notHandled: bool, net: Net)
    | OpResumeLookup(net: Net)
    | OpResumeAwaited(ids: seq<nat>, settled: bool, net: Net)
    | OpDump(net: Net)
    | OpRestore(net: Net)
    | OpInstall(none: bool, valid: bool, net: Net)
    | OpAbort(net: Net)
    | OpFinish(net: Net)
    | OpTerminate
    | OpRotate(attempts: seq<BindNet>)

  /** What an operation gives back; a rotation says whether a worker was bound. */
  datatype Result = Returns(r: Outcome) | Done | Moved(bound: bool)

  /** Some attempt is to succeed and the pool does not close before it. */
  ghost predicate SomeBinds(attempts: seq<BindNet>, b: Budget) {
    exists i :: 0 <= i < |attempts| && OpenUntil(attempts, i + 1) && !attempts[i].spawnFails && Binds(attempts[i], b)
  }

  ghost predicate OpenUntil(attempts: seq<BindNet>, n: nat) {
    n <= |attempts| && forall i | 0 <= i < n :: !attempts[i].closed
  }

  ghost predicate Rotated(v: View, attempts: seq<BindNet>, bound: bool, w: View) {
    && w.configured == v.configured && w.returned == v.returned
    && (bound ==> v.ready && v.pending == NoPending && v.remote)
    && (v.ready && v.pending == NoPending && v.remote && !bound ==> !w.lease)
    && (!bound ==> w.log == v.log && (w.lease ==> v.lease))
    && (bound ==> w.remote && w.pending == NoPending && w.budget.seen == v.budget.seen && w.budget.limit <= v.budget.limit)
    && (bound ==> !w.abortFlight && (w.ready <==> w.lease) && IntroducedIn(attempts, v.budget, w.log, w.budget))
    && (v.ready && v.pending == NoPending && v.remote && SomeBinds(attempts, v.budget) ==> bound)
  }

  /** One operation of a session takes it from v to w with this result. */
  ghost predicate StepOk(v: View, op: Op, res: Result, w: View) {
    match op
    case OpFeed(validCwd, net) =>
      res.Returns? && Turned(v, v.pending == NoPending && validCwd, Request.Feed, net, res.r, w)
    case OpResume(notHandled, net) =>
      res.Returns? && if v.pending.Call? then Turned(v, notHandled ==> v.pending.os, ResumeCall(v.pending.id, notHandled), net, res.r, w)
                      else Turned(v, false, ResumeCall(0, notHandled), net, res.r, w)
    case OpResumeLookup(net) =>
      res.Returns? && Turned(v, v.pending.Lookup?, ResumeNameLookup, net, res.r, w)
    case OpResumeAwaited(ids, settled, net) =>
      res.Returns? && Turned(v, Answers(ResumeFutures(ids), v.pending) && settled, ResumeFutures(ids), net, res.r, w)
    case OpDump(net) => (res == Returns(Event(DumpResult)) || res == Done) && Dumped(v, net, res.Returns?, w)
    case OpRestore(net) => res.Returns? && Restored(v, net, res.r, w)
    case OpInstall(none, valid, net) => (res == Returns(Event(Ok)) || res == Done) && Installed(v, none, valid, net, res.Returns?, w)
    case OpAbort(net) => res == Done && Aborted(v, net, w)
    case OpFinish(net) => res == Done && Closed(v, w) && Recorded(v.budget, v.log, net, w.log, w.budget, w.lease)
    case OpTerminate => res == Done && Closed(v, w) && w.log == v.log
    case OpRotate(attempts) => res.Moved? && Rotated(v, attempts, res.bound, w)
  }

  /** The suspensions handed to the host since the last Restore that loaded a state. */
  function SinceRestore(ops: seq<Op>, results: seq<Result>): nat
    requires |ops| == |results|
  {
    if ops == [] then 0
    else
      var n := |ops| - 1;
      var now := if results[n].Returns? then Counts(results[n].r) else 0;
      if ops[n].OpRestore? && results[n].Returns? && results[n].r.Event? then now
      else SinceRestore(ops[..n], results[..n]) + now
  }

  lemma CountedStep(v: View, op: Op, res: Result, w: View, ops: seq<Op>, results: seq<Result>)
    requires StepOk(v, op, res, w) && |ops| == |results| && v.returned == SinceRestore(ops, results)
    ensures w.configured == v.configured && w.returned == SinceRestore(ops + [op], results + [res])
  {
    hide Replied, Refused, Reply, SomeBinds;
    assert (ops + [op])[..|ops|] == ops && (results + [res])[..|ops|] == results;
  }

  /** One operation; a rotation hands the worker off and binds until an attempt succeeds. */
  method Perform(c: Session, op: Op) returns (next: Session, res: Result)
    requires c.Valid()
    modifies c
    ensures next.Valid() && (next == c || fresh(next))
    ensures StepOk(old(c.Seen()), op, res, next.Seen())
  {
    hide WireOk, AllConform, Outstanding, MaySend, Crossed, Turned, Dumped, Installed, Restored, Aborted, Closed, Rotated, Session.Valid;
    next := c;
    var r, ok;
    match op {
      case OpFeed(validCwd, net) =>
        r := c.Feed(validCwd, net);
        res := Returns(r);
      case OpResume(notHandled, net) =>
        r := c.Resume(notHandled, net);
        res := Returns(r);
      case OpResumeLookup(net) =>
        r := c.ResumeLookup(net);
        res := Returns(r);
      case OpResumeAwaited(ids, settled, net) =>
        r := c.ResumeAwaited(ids, settled, net);
        res := Returns(r);
      case OpDump(net) =>
        ok := c.DumpState(net);
        res := if ok then Returns(Event(DumpResult)) else Done;
      case OpRestore(net) =>
        r := c.Restore(net);
        res := Returns(r);
      case OpInstall(none, valid, net) =>
        ok := c.Install(none, valid, net);
        res := if ok then Returns(Event(Ok)) else Done;
      case OpAbort(net) =>
        c.Abort(net);
        res := Done;
      case OpFinish(net) =>
        c.Finish(net);
        res := Done;
      case OpTerminate =>
        c.Terminate();
        res := Done;
      case OpRotate(attempts) =>
        next, ok := Rotate(c, attempts);
        res := Moved(ok);
    }
  }

  method Rotate(c: Session, attempts: seq<BindNet>) returns (next: Session, bound: bool)
    requires c.Valid()
    modifies c
    ensures next.Valid() && (next == c || fresh(next))
    ensures Rotated(old(c.Seen()), attempts, bound, next.Seen())
  {
    hide WireOk, AllConform, Outstanding, MaySend, Crossed, SomeBinds, IntroducedIn;
    next, bound := c, false;
    var res := c.Handoff();
    if res != null {
      var d := Rebind(res, attempts);
      if d != null {
        next, bound := d, true;
      }
    }
  }

  method Rebind(res: Reservation, attempts: seq<BindNet>) returns (c: Session?)
    requires res.Valid() && res.held
    modifies res
    ensures c != null ==> fresh(c) && c.Valid() && Carries(res, c) && IntroducedIn(attempts, res.budget, c.log, c.budget)
    ensures SomeBinds(attempts, res.budget) ==> c != null
  {
    hide WireOk, AllConform, Outstanding, MaySend, Crossed, Session.Valid, Carries, Binds, Introduced;
    c := null;
    var i := 0;
    while c == null && i < |attempts|
      invariant 0 <= i <= |attempts|
      invariant c != null ==> fresh(c) && c.Valid() && Carries(res, c) && IntroducedIn(attempts, res.budget, c.log, c.budget)
      invariant c == null && OpenUntil(attempts, i) ==> res.held
      invariant c == null ==>
          forall j | 0 <= j < i :: OpenUntil(attempts, j + 1) && !attempts[j].spawnFails ==> !Binds(attempts[j], res.budget)
    {
      c := Bind(res, attempts[i]);
      i := i + 1;
    }
  }

  /**
    Main result: over a whole session, whatever the workers do and however
    often it moves to another one, the suspensions returned to the host since
    the last Restore never exceed the configured limit, at any point; every
    operation does what it promises in the state the ones before it left.
  */
  method RunSession(remote: bool, max: Option<nat>, ops: seq<Op>)
    returns (last: Session, results: seq<Result>, ghost views: seq<View>)
    ensures last.Valid() && fresh(last) && |results| == |ops| && |views| == |ops| + 1
    ensures views[0] == View(true, true, remote, NoPending, Budget(FreshLimit(max), 0), false, 0, FreshLimit(max), [])
    ensures views[|ops|] == last.Seen()
    ensures forall i | 0 <= i < |ops| :: StepOk(views[i], ops[i], results[i], views[i + 1])
    ensures forall i | 0 <= i <= |ops| :: WireOk(views[i].log)
    ensures forall i | 0 <= i <= |ops| :: SinceRestore(ops[..i], results[..i]) <= FreshLimit(max)
  {
    hide WireOk, AllConform, Outstanding, MaySend, Crossed, StepOk, Session.Valid, SinceRestore;
    last := new Session(remote, max);
    results, views := [], [last.Seen()];
    ValidFacts(last);
    NothingReturned();
    for i := 0 to |ops|
      invariant fresh(last) && last.Valid() && |results| == i && |views| == i + 1 && views[i] == last.Seen()
      invariant views[0] == View(true, true, remote, NoPending, Budget(FreshLimit(max), 0), false, 0, FreshLimit(max), [])
      invariant last.configured == FreshLimit(max) && last.returned == SinceRestore(ops[..i], results)
      invariant forall j | 0 <= j < i :: StepOk(views[j], ops[j], results[j], views[j + 1])
      invariant forall j | 0 <= j <= i :: WireOk(views[j].log) && SinceRestore(ops[..j], results[..j]) <= FreshLimit(max)
    {
      var res;
      ghost var before := last.Seen();
      last, res := Perform(last, ops[i]);
      CountedStep(before, ops[i], res, last.Seen(), ops[..i], results);
      assert ops[..i + 1] == ops[..i] + [ops[i]];
      ghost var was := results;
      results, views := results + [res], views + [last.Seen()];
      ValidFacts(last);
      assert results[..i + 1] == results;
      assert forall j | 0 <= j <= i :: results[..j] == was[..j];
    }
  }

  lemma NothingReturned()
    ensures SinceRestore([], []) == 0
  {
  }

  lemma ValidFacts(c: Session)
    requires c.Valid()
    ensures WireOk(c.log) && c.returned <= c.configured
  {
  }
}
