/**
  The conversation between a checkout and its worker: requests, events, and
  what a log of the wire must look like (internal/pool/checkout.go).
*/
module Wire {
  import opened Prelude

  datatype Request =
    | Configure
    | Feed
    | ResumeCall(id: nat, notHandled: bool)
    | ResumeNameLookup
    | ResumeFutures(ids: seq<nat>)
    | Dump
    | Load
    | InstallDependencies
    | Reset
    | AbortFeed

  datatype Event =
    | FunctionCall(id: nat, eager: bool)
    | OsCall(id: nat, valid: bool)
    | NameLookup
    | ResolveFutures
    | Complete(hasValue: bool)
    | Error(hasException: bool)
    | TypingError
    | Ok
    | DumpResult
    | FatalError
    | Shutdown
    | Print
    | Unknown

  predicate IsSuspension(ev: Event) {
    ev.FunctionCall? || ev.OsCall? || ev.NameLookup? || ev.ResolveFutures?
  }

  /** The suspension that awaits an answer. */
  datatype Pending = NoPending | Call(id: nat, os: bool, eager: bool) | Lookup | Futures

  function Suspended(ev: Event): Pending
    requires IsSuspension(ev)
  {
    match ev
    case FunctionCall(id, eager) => Call(id, false, eager)
    case OsCall(id, _) => Call(id, true, false)
    case NameLookup => Lookup
    case ResolveFutures => Futures
  }

  predicate IsResume(req: Request) {
    req.ResumeCall? || req.ResumeNameLookup? || req.ResumeFutures?
  }

  /** The request answers this suspension: its kind, and its call id where there is one. */
  predicate Answers(req: Request, p: Pending) {
    match req
    case ResumeCall(id, notHandled) => p.Call? && p.id == id && (notHandled ==> p.os)
    case ResumeNameLookup => p.Lookup?
    case ResumeFutures(ids) => p.Futures? || (p.Call? && p.eager && ids == [p.id])
    case _ => false
  }

  predicate EndsAbort(ev: Event) {
    ev.Error? || ev.FatalError? || ev.Shutdown?
  }

  // ----- the log -----

  /** The suspension part of sessionBudget. */
  datatype Budget = Budget(limit: nat, seen: nat)

  /** sessionBudget.observe */
  function Observe(b: Budget, ev: Event, max: Option<nat>): (r: Budget)
    ensures r.limit <= b.limit && b.seen <= r.seen
  {
    Budget(if max.Some? && max.value < b.limit then max.value else b.limit,
           if IsSuspension(ev) then b.seen + 1 else b.seen)
  }

  /** A frame sent, or a non-Print event consumed with the limit it announced and the budget after it. */
  datatype Entry = Sent(req: Request) | Got(ev: Event, max: Option<nat>, after: Budget)

  /** A suspension beyond the budget. */
  predicate Over(e: Entry) {
    e.Got? && IsSuspension(e.ev) && e.after.seen > e.after.limit
  }

  datatype Message = Message(ev: Event, max: Option<nat>)

  /** The events a log has consumed, in order. */
  ghost function Consumed(log: seq<Entry>): seq<Message> {
    if log == [] then []
    else
      var n := |log| - 1;
      Consumed(log[..n]) + if log[n].Got? then [Message(log[n].ev, log[n].max)] else []
  }

  lemma ConsumedAppend(log: seq<Entry>, e: Entry)
    ensures Consumed(log + [e]) == Consumed(log) + if e.Got? then [Message(e.ev, e.max)] else []
  {
    assert (log + [e])[..|log|] == log;
  }

  // ----- the budget along the log -----

  /** The budget b after everything that was consumed. */
  ghost function Tally(b: Budget, messages: seq<Message>): Budget {
    if messages == [] then b
    else
      var last := messages[|messages| - 1];
      Observe(Tally(b, messages[..|messages| - 1]), last.ev, last.max)
  }

  /** Every event of the log after the first from entries is recorded with the budget it led to, starting from b. */
  ghost predicate Tallied(b: Budget, log: seq<Entry>, from: nat) {
    forall i | from <= i < |log| && log[i].Got? :: log[i].after == Tally(b, Consumed(log[from..i + 1]))
  }

  lemma TallyAppend(b: Budget, messages: seq<Message>, msg: Message)
    ensures Tally(b, messages + [msg]) == Observe(Tally(b, messages), msg.ev, msg.max)
  {
    assert (messages + [msg])[..|messages|] == messages;
  }

  lemma TalliedAppend(b: Budget, log: seq<Entry>, from: nat, e: Entry)
    requires from <= |log| && Tallied(b, log, from)
    requires e.Got? ==> e.after == Observe(Tally(b, Consumed(log[from..])), e.ev, e.max)
    ensures Tallied(b, log + [e], from)
    ensures Consumed((log + [e])[from..]) == Consumed(log[from..]) + if e.Got? then [Message(e.ev, e.max)] else []
    ensures Tally(b, Consumed((log + [e])[from..])) == if e.Got? then e.after else Tally(b, Consumed(log[from..]))
  {
    hide Consumed, Tally;
    var next := log + [e];
    assert next[from..] == log[from..] + [e];
    ConsumedAppend(log[from..], e);
    assert Consumed(log[from..]) + [] == Consumed(log[from..]);
    if e.Got? {
      TallyAppend(b, Consumed(log[from..]), Message(e.ev, e.max));
    }
    forall i | from <= i < |next| && next[i].Got? ensures next[i].after == Tally(b, Consumed(next[from..i + 1])) {
      if i < |log| {
        assert next[from..i + 1] == log[from..i + 1];
      } else {
        assert next[from..i + 1] == next[from..];
      }
    }
  }

  ghost function Suspensions(messages: seq<Message>): nat {
    if messages == [] then 0
    else
      var ev := messages[|messages| - 1].ev;
      Suspensions(messages[..|messages| - 1]) + if ev.FunctionCall? || ev.OsCall? || ev.NameLookup? || ev.ResolveFutures? then 1 else 0
  }

  /** The budget counts every suspension, and its limit is the least of its own and those announced. */
  lemma {:induction false} TallyExact(b: Budget, messages: seq<Message>)
    ensures var t := Tally(b, messages);
      && t.seen == b.seen + Suspensions(messages)
      && t.limit <= b.limit
      && (forall m | m in messages && m.max.Some? :: t.limit <= m.max.value)
      && (t.limit == b.limit || exists m | m in messages :: m.max == Some(t.limit))
  {
    if messages != [] {
      var init, last := messages[..|messages| - 1], messages[|messages| - 1];
      TallyExact(b, init);
      assert forall m | m in messages :: m in init || m == last;
      assert last in messages && forall m | m in init :: m in messages;
    }
  }

  /** What a worker that keeps to the protocol may answer. */
  predicate Conforms(req: Request, ev: Event) {
    || EndsAbort(ev)
    || match req
       case Configure => ev.Ok?
       case InstallDependencies => ev.Ok?
       case Reset => ev.Ok?
       case Dump => ev.DumpResult?
       case Load => ev.Ok? || IsSuspension(ev)
       case AbortFeed => false
       case _ => IsSuspension(ev) || ev.Complete? || ev.TypingError?
  }

  ghost predicate AllConform(log: seq<Entry>) {
    log == [] || (
      var n := |log| - 1;
      && AllConform(log[..n])
      && (n >= 1 && log[n].Got? && log[n - 1].Sent? ==> Conforms(log[n - 1].req, log[n].ev))
    )
  }

  /** The suspension the worker still waits on, read off the log. */
  ghost function Outstanding(log: seq<Entry>): Pending {
    if log == [] then NoPending
    else
      var n := |log| - 1;
      var before := Outstanding(log[..n]);
      match log[n]
      case Sent(req) => if IsResume(req) || req.AbortFeed? || req.Load? then NoPending else before
      case Got(ev, _, _) =>
        if IsSuspension(ev) then Suspended(ev)
        else if ev.Ok? || ev.DumpResult? then before
        else if ev.Error? && n >= 1 && log[n - 1] == Sent(Dump) then before
        else NoPending
  }

  /** After this history the parent may send again. */
  ghost predicate MaySend(log: seq<Entry>) {
    var n := |log|;
    && n % 2 == 0
    && (n >= 2 && log[n - 2] == Sent(AbortFeed) && log[n - 1].Got? ==> EndsAbort(log[n - 1].ev))
  }

  ghost predicate Crossed(log: seq<Entry>) {
    log != [] && Over(log[|log| - 1])
  }

  ghost predicate EntryOk(before: seq<Entry>, e: Entry) {
    match e
    case Sent(req) =>
      && MaySend(before)
      && (Crossed(before) ==> req.AbortFeed?)
      && (IsResume(req) && AllConform(before) ==> Answers(req, Outstanding(before)))
    case Got(_, _, _) => |before| % 2 == 1
  }

  ghost predicate WireOk(log: seq<Entry>) {
    log == [] || (WireOk(log[..|log| - 1]) && EntryOk(log[..|log| - 1], log[|log| - 1]))
  }

  lemma WireAppend(log: seq<Entry>, e: Entry)
    requires WireOk(log) && EntryOk(log, e)
    ensures WireOk(log + [e])
  {
    assert (log + [e])[..|log|] == log;
  }

  lemma OutstandingAppend(log: seq<Entry>, e: Entry)
    ensures AllConform(log + [e]) ==> AllConform(log)
    ensures e.Sent? && !IsResume(e.req) && !e.req.AbortFeed? && !e.req.Load? ==> Outstanding(log + [e]) == Outstanding(log)
    ensures e.Got? && IsSuspension(e.ev) ==> Outstanding(log + [e]) == Suspended(e.ev)
    ensures e.Got? && (e.ev.Ok? || e.ev.DumpResult?) ==> Outstanding(log + [e]) == Outstanding(log)
    ensures e.Got? && e.ev.Error? && log != [] && log[|log| - 1] == Sent(Dump) ==> Outstanding(log + [e]) == Outstanding(log)
    ensures AllConform(log + [e]) && log != [] && log[|log| - 1].Sent? && e.Got? ==> Conforms(log[|log| - 1].req, e.ev)
  {
    assert (log + [e])[..|log|] == log;
  }

  // ----- one turn on the log -----

  /** The turn of req, begun after start, waits for an event; aborting when its own reply crossed the budget. */
  ghost predicate Asked(start: seq<Entry>, req: Request, log: seq<Entry>, aborting: bool) {
    && WireOk(log) && |log| % 2 == 1
    && start + [Sent(req)] <= log
    && (log == start + [Sent(req)] || (log[|log| - 1] == Sent(AbortFeed) && (req == Dump ==> !AllConform(log))))
    && (log[|log| - 1] == Sent(AbortFeed) ==> aborting)
  }

  lemma AskedFirst(start: seq<Entry>, req: Request, aborting: bool)
    requires WireOk(start) && EntryOk(start, Sent(req)) && (req.AbortFeed? ==> aborting)
    ensures Asked(start, req, start + [Sent(req)], aborting)
  {
    hide WireOk, AllConform, Outstanding;
    WireAppend(start, Sent(req));
  }

  /** The event leaves the log acceptable; unless it belies an abort, sending may go on. */
  lemma AskedGot(start: seq<Entry>, req: Request, log: seq<Entry>, aborting: bool, got: Entry)
    requires Asked(start, req, log, aborting) && got.Got?
    ensures var next := log + [got];
      && WireOk(next) && start + [Sent(req)] <= next
      && (!aborting || EndsAbort(got.ev) ==> MaySend(next))
      && (Crossed(next) <==> Over(got))
  {
    hide WireOk, AllConform, Outstanding;
    WireAppend(log, got);
  }

  lemma AskedAbort(start: seq<Entry>, req: Request, log: seq<Entry>, got: Entry)
    requires Asked(start, req, log, false) && Over(got)
    ensures Asked(start, req, log + [got] + [Sent(AbortFeed)], true)
  {
    hide WireOk, AllConform, Outstanding;
    var next := log + [got];
    AskedGot(start, req, log, false, got);
    OutstandingAppend(log, got);
    OutstandingAppend(next, Sent(AbortFeed));
    WireAppend(next, Sent(AbortFeed));
    hide MaySend;
    assert start + [Sent(req)] <= next <= next + [Sent(AbortFeed)];
  }

  /** An event that leaves the parent's pending suspension alone leaves the worker's alone too. */
  lemma AskedPending(start: seq<Entry>, req: Request, log: seq<Entry>, aborting: bool, got: Entry, p: Pending)
    requires Asked(start, req, log, aborting) && got.Got? && AllConform(log + [got])
    requires req.Load? ==> p == NoPending
    requires AllConform(start) && p != NoPending ==> Outstanding(start) == p
    ensures IsSuspension(got.ev) ==> Outstanding(log + [got]) == Suspended(got.ev)
    ensures p != NoPending && (got.ev.Ok? || got.ev.DumpResult? || (got.ev.Error? && req == Dump)) ==>
      Outstanding(log + [got]) == p
  {
    OutstandingAppend(log, got);
    hide WireOk, AllConform, Outstanding;
    if log == start + [Sent(req)] {
      OutstandingAppend(start, Sent(req));
    }
  }

  // ----- what an acceptable log means -----

  lemma {:induction false} EntryAt(log: seq<Entry>, i: nat)
    requires WireOk(log) && i < |log|
    ensures EntryOk(log[..i], log[i])
  {
    var n := |log| - 1;
    if i < n {
      EntryAt(log[..n], i);
      assert log[..n][..i] == log[..i];
    }
  }

  /** Strict alternation: frames are sent at even places and one event is consumed between two of them. */
  lemma {:induction false} Alternation(log: seq<Entry>)
    requires WireOk(log)
    ensures forall i | 0 <= i < |log| :: log[i].Sent? <==> i % 2 == 0
  {
    forall i | 0 <= i < |log| ensures log[i].Sent? <==> i % 2 == 0 {
      EntryAt(log, i);
    }
  }

  lemma {:induction false} ConformPrefix(log: seq<Entry>, i: nat)
    requires AllConform(log) && i <= |log|
    ensures AllConform(log[..i])
  {
    if i == |log| {
      assert log[..i] == log;
    } else {
      var n := |log| - 1;
      ConformPrefix(log[..n], i);
      assert log[..n][..i] == log[..i];
    }
  }

  /** Where the suspension of a history came from, and that nothing has answered it since. */
  lemma {:induction false} OutstandingOrigin(log: seq<Entry>)
    requires Outstanding(log) != NoPending
    ensures exists j :: 0 <= j < |log| && IsOrigin(log, j)
  {
    var n := |log| - 1;
    var prev := log[..n];
    if log[n].Got? && IsSuspension(log[n].ev) {
      assert IsOrigin(log, n);
    } else {
      OutstandingOrigin(prev);
      var j :| 0 <= j < |prev| && IsOrigin(prev, j);
      assert IsOrigin(log, j);
    }
  }

  ghost predicate IsOrigin(log: seq<Entry>, j: nat)
    requires j < |log|
  {
    && log[j].Got? && IsSuspension(log[j].ev) && Suspended(log[j].ev) == Outstanding(log)
    && (forall k | j < k < |log| :: !(log[k].Got? && IsSuspension(log[k].ev)))
    && (forall k | j < k < |log| && log[k].Sent? :: !IsResume(log[k].req) && !log[k].req.AbortFeed?)
  }

  /** The request is of the kind the event waits for, under the event's own call id; only an OS call can be answered as not handled. */
  predicate Fits(req: Request, ev: Event) {
    match (req, ev)
    case (ResumeCall(id, notHandled), FunctionCall(called, _)) => id == called && !notHandled
    case (ResumeCall(id, _), OsCall(called, _)) => id == called
    case (ResumeNameLookup, NameLookup) => true
    case (ResumeFutures(_), ResolveFutures) => true
    case (ResumeFutures(ids), FunctionCall(called, eager)) => eager && ids == [called]
    case _ => false
  }

  /** The engine lets a request answer a suspension exactly if it fits. */
  lemma AnswersFit(req: Request, ev: Event)
    requires ev.FunctionCall? || ev.OsCall? || ev.NameLookup? || ev.ResolveFutures?
    ensures Answers(req, Suspended(ev)) <==> Fits(req, ev)
  {
  }

  /** The resume at i answers the suspension at j, with no other suspension or answer between them. */
  ghost predicate AnsweredAt(log: seq<Entry>, j: nat, i: nat)
    requires j < i < |log|
  {
    && log[j].Got? && log[i].Sent? && Fits(log[i].req, log[j].ev)
    && (forall k | j < k < i && log[k].Got? ::
          !log[k].ev.FunctionCall? && !log[k].ev.OsCall? && !log[k].ev.NameLookup? && !log[k].ev.ResolveFutures?)
    && (forall k | j < k < i && log[k].Sent? ::
          !log[k].req.ResumeCall? && !log[k].req.ResumeNameLookup? && !log[k].req.ResumeFutures? && !log[k].req.AbortFeed?)
  }

  /**
    Main result: with a worker that keeps to the protocol, every resume on the
    wire answers the latest suspension, which nothing has answered before.
  */
  lemma ResumeAnswersLatest(log: seq<Entry>, i: nat)
    requires WireOk(log) && AllConform(log) && i < |log| && log[i].Sent?
    requires log[i].req.ResumeCall? || log[i].req.ResumeNameLookup? || log[i].req.ResumeFutures?
    ensures exists j :: 0 <= j < i && AnsweredAt(log, j, i)
  {
    hide Outstanding, AllConform;
    EntryAt(log, i);
    ConformPrefix(log, i);
    OutstandingOrigin(log[..i]);
    var j :| 0 <= j < i && IsOrigin(log[..i], j);
    assert log[..i][j] == log[j];
    assert forall k | j < k < i :: log[..i][k] == log[k];
    assert AnsweredAt(log, j, i);
  }

  /** A suspension beyond the budget is followed by an abort, and the abort by an error, a crash or a shutdown. */
  lemma CrossingAborted(log: seq<Entry>, i: nat)
    requires WireOk(log) && i < |log| && log[i].Got? && log[i].after.seen > log[i].after.limit
    requires log[i].ev.FunctionCall? || log[i].ev.OsCall? || log[i].ev.NameLookup? || log[i].ev.ResolveFutures?
    ensures i + 1 < |log| ==> log[i + 1] == Sent(AbortFeed)
    ensures i + 3 < |log| ==> log[i + 2].Got? && (log[i + 2].ev.Error? || log[i + 2].ev.FatalError? || log[i + 2].ev.Shutdown?)
  {
    Alternation(log);
    if i + 1 < |log| {
      EntryAt(log, i + 1);
      assert log[..i + 1][i] == log[i];
    }
    if i + 3 < |log| {
      EntryAt(log, i + 3);
      assert log[..i + 3][i + 1] == log[i + 1] && log[..i + 3][i + 2] == log[i + 2];
    }
  }

  /** Such a log with a conforming worker: a call is answered and the feed completes. */
  lemma AnsweredLog(id: nat, b: Budget)
    ensures var log := [Sent(Configure), Got(Ok, None, b), Sent(Feed), Got(FunctionCall(id, false), None, b.(limit := b.seen)),
                        Sent(ResumeCall(id, false)), Got(Complete(true), None, b)];
      WireOk(log) && AllConform(log) && AnsweredAt(log, 3, 4)
  {
    var l0 := [Sent(Configure)];
    var l1 := l0 + [Got(Ok, None, b)];
    var l2 := l1 + [Sent(Feed)];
    var l3 := l2 + [Got(FunctionCall(id, false), None, b.(limit := b.seen))];
    var l4 := l3 + [Sent(ResumeCall(id, false))];
    var l5 := l4 + [Got(Complete(true), None, b)];
    OneMore(l0, Got(Ok, None, b));
    OneMore(l1, Sent(Feed));
    OneMore(l2, Got(FunctionCall(id, false), None, b.(limit := b.seen)));
    OneMore(l3, Sent(ResumeCall(id, false)));
    OneMore(l4, Got(Complete(true), None, b));
    assert l5 == [Sent(Configure), Got(Ok, None, b), Sent(Feed), Got(FunctionCall(id, false), None, b.(limit := b.seen)),
                  Sent(ResumeCall(id, false)), Got(Complete(true), None, b)];
  }

  lemma OneMore(log: seq<Entry>, e: Entry)
    requires WireOk(log) && AllConform(log) && EntryOk(log, e)
    requires e.Got? && log != [] && log[|log| - 1].Sent? ==> Conforms(log[|log| - 1].req, e.ev)
    ensures WireOk(log + [e]) && AllConform(log + [e])
    ensures e.Got? && IsSuspension(e.ev) ==> Outstanding(log + [e]) == Suspended(e.ev)
  {
    WireAppend(log, e);
    OutstandingAppend(log, e);
    assert (log + [e])[..|log|] == log;
  }
}
