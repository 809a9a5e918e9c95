/**
  How a stop is reported and what the end of a session means (stop.go,
  lifecycle.go), over the steps of every run.
*/
module SessionReports {
  import opened Prelude
  import opened Stop
  import opened SessionRun

  // ----- what happened to an execution -----

  /** Begin found the stop requested, or the context ended, before anything was sent. */
  ghost predicate StoppedAtBegin(s: Life, step: Step, e: nat) {
    && step.Begin? && step.e == e && Holds(s, e, {Driver}) && Usable(s, e)
    && (if s.execs[e].stop.Some? then s.execs[e].stop.value.d.requested else step.contextEnded)
  }

  /** The worker answered the abort with an error, in time. */
  ghost predicate AbortedAt(s: Life, step: Step, e: nat) {
    step == AbortAnswered(e) && Checked(s, e)
  }

  /** The catchable reason of the stop was delivered. */
  ghost predicate DeliveredAt(s: Life, step: Step, e: nat) {
    && step == Deliver(e) && Holds(s, e, {Driver})
    && s.execs[e].stop.Some? && s.execs[e].stop.value.d.requested
  }

  /** The session was terminated, or the kill claimed, while the execution was current. */
  ghost predicate EndedAt(s: Life, step: Step, e: nat) {
    && e in s.execs
    && ((step.Terminate? && s.current == Some(e)) || (step.Force? && step.e == e && Claims(s, e)))
  }

  /** The state before the i-th step. */
  ghost function At(now: int, steps: seq<Step>, i: nat): Life
    requires i <= |steps|
  {
    Run(Init(now), steps[..i])
  }

  ghost predicate WasStoppedAtBegin(now: int, steps: seq<Step>, e: nat) {
    exists i | 0 <= i < |steps| :: StoppedAtBegin(At(now, steps, i), steps[i], e)
  }

  ghost predicate WasAborted(now: int, steps: seq<Step>, e: nat) {
    exists i | 0 <= i < |steps| :: AbortedAt(At(now, steps, i), steps[i], e)
  }

  ghost predicate WasDelivered(now: int, steps: seq<Step>, e: nat) {
    exists i | 0 <= i < |steps| :: DeliveredAt(At(now, steps, i), steps[i], e)
  }

  ghost predicate WasEnded(now: int, steps: seq<Step>, e: nat) {
    exists i | 0 <= i < |steps| :: EndedAt(At(now, steps, i), steps[i], e)
  }

  // ----- the marks record what happened -----

  datatype Marks = Marks(beforeStart: bool, aborted: bool, delivered: bool, ended: bool)

  ghost function MarksOf(s: Life, e: nat): Marks {
    if e !in s.execs then Marks(false, false, false, false) else ExecMarks(s.execs[e])
  }

  function ExecMarks(x: Exec): Marks {
    Marks(x.beforeStart, x.aborted, x.delivered, x.terminalCause)
  }

  ghost function MarksAfter(s: Life, step: Step, e: nat): Marks {
    var m := MarksOf(s, e);
    Marks(m.beforeStart || StoppedAtBegin(s, step, e), m.aborted || AbortedAt(s, step, e),
          m.delivered || DeliveredAt(s, step, e), m.ended || EndedAt(s, step, e))
  }

  /** A step that changes one execution, if any, leaves the marks of the others. */
  lemma PutMarks(s: Life, t: Life, d: nat, e: nat)
    requires d in s.execs && d in t.execs && (t == s || t.execs == s.execs[d := t.execs[d]])
    ensures e != d ==> MarksOf(t, e) == MarksOf(s, e)
    ensures MarksOf(t, d) == ExecMarks(t.execs[d]) && MarksOf(s, d) == ExecMarks(s.execs[d])
  {
  }

  lemma BeginExec(s: Life, d: nat, send: bool, ended: bool, p: Policy, gap: nat)
    requires Holds(s, d, {Driver})
    ensures var t := DoBegin(s, d, send, ended, p, gap);
      && d in t.execs && (t == s || t.execs == s.execs[d := t.execs[d]])
      && ExecMarks(t.execs[d]) ==
           ExecMarks(s.execs[d]).(beforeStart := s.execs[d].beforeStart || StoppedAtBegin(s, Begin(d, send, ended, p, gap), d))
  {
    var x := s.execs[d];
    if Usable(s, d) && x.stop.None? && ended {
      assert DoBegin(s, d, send, ended, p, gap).execs[d].beforeStart;
    }
  }

  lemma BeginMarks(s: Life, d: nat, send: bool, ended: bool, p: Policy, gap: nat, e: nat)
    requires Holds(s, d, {Driver})
    ensures var step := Begin(d, send, ended, p, gap); MarksOf(DoBegin(s, d, send, ended, p, gap), e) == MarksAfter(s, step, e)
  {
    BeginExec(s, d, send, ended, p, gap);
    hide MarksOf, DoBegin, Usable;
    PutMarks(s, DoBegin(s, d, send, ended, p, gap), d, e);
  }

  lemma FinishExec(s: Life, d: nat, failed: bool)
    requires d in s.execs
    ensures var t := DoFinish(s, d, failed);
      && d in t.execs && (t == s || t.execs == s.execs[d := t.execs[d]])
      && ExecMarks(t.execs[d]) == ExecMarks(s.execs[d])
  {
  }

  lemma FinishMarks(s: Life, d: nat, failed: bool, e: nat)
    requires d in s.execs
    ensures MarksOf(DoFinish(s, d, failed), e) == MarksOf(s, e)
  {
    FinishExec(s, d, failed);
    hide MarksOf, DoFinish;
    PutMarks(s, DoFinish(s, d, failed), d, e);
  }

  lemma EnterRequestMarks(x: Exec)
    requires x.stop.Some?
    ensures ExecMarks(EnterRequest(x)) == ExecMarks(x)
  {
  }

  lemma RequestExec(s: Life, d: nat, p: Policy)
    requires d in s.execs
    ensures var t := DoRequestStop(s, d, p);
      && d in t.execs && (t == s || t.execs == s.execs[d := t.execs[d]])
      && ExecMarks(t.execs[d]) == ExecMarks(s.execs[d])
  {
    StopAfterSome(s.execs[d], p, s.clock);
    hide StopAfter, EnterRequest;
    EnterRequestMarks(s.execs[d].(stop := StopAfter(s.execs[d], p, s.clock)));
  }

  lemma StopAfterSome(x: Exec, p: Policy, clock: int)
    ensures StopAfter(x, p, clock).Some?
  {
  }

  lemma RequestMarks(s: Life, d: nat, p: Policy, e: nat)
    requires d in s.execs
    ensures MarksOf(DoRequestStop(s, d, p), e) == MarksOf(s, e)
  {
    RequestExec(s, d, p);
    hide MarksOf, DoRequestStop;
    PutMarks(s, DoRequestStop(s, d, p), d, e);
  }

  lemma TimerMarks(s: Life, d: nat, e: nat)
    requires d in s.execs
    ensures MarksOf(DoStopTimer(s, d), e) == MarksOf(s, e)
  {
    hide MarksOf;
    var t := DoStopTimer(s, d);
    PutMarks(s, t, d, e);
  }

  lemma ForceExec(s: Life, d: nat, cause: nat)
    requires d in s.execs
    ensures var t := DoForce(s, d, cause);
      && d in t.execs && (t == s || t.execs == s.execs[d := t.execs[d]])
      && ExecMarks(t.execs[d]) == ExecMarks(s.execs[d]).(ended := s.execs[d].terminalCause || Claims(s, d))
  {
  }

  lemma ForceMarks(s: Life, d: nat, cause: nat, e: nat)
    requires d in s.execs
    ensures MarksOf(DoForce(s, d, cause), e) == MarksAfter(s, Force(d, cause), e)
  {
    ForceExec(s, d, cause);
    hide MarksOf, DoForce, Claims;
    PutMarks(s, DoForce(s, d, cause), d, e);
  }

  lemma ForceResolveMarks(s: Life, d: nat, e: nat)
    requires d in s.execs
    ensures MarksOf(DoForceResolve(s, d), e) == MarksOf(s, e)
  {
    hide MarksOf;
    var t := DoForceResolve(s, d);
    PutMarks(s, t, d, e);
  }

  lemma TerminateMarks(s: Life, cause: nat, e: nat)
    ensures MarksOf(DoTerminate(s, cause), e) == MarksAfter(s, Terminate(cause), e)
  {
    hide MarksOf;
    var t := DoTerminate(s, cause);
    if s.current.Some? && s.current.value in s.execs {
      var d := s.current.value;
      PutMarks(s, t, d, e);
    } else {
      SameMarks(s, t, e);
    }
  }

  lemma SameMarks(s: Life, t: Life, e: nat)
    requires t.execs == s.execs
    ensures MarksOf(t, e) == MarksOf(s, e)
  {
  }

  lemma PublishMarks(s: Life, d: nat, e: nat)
    requires d in s.execs
    ensures MarksOf(DoPublish(s, d), e) == MarksOf(s, e)
  {
    hide MarksOf;
    var t := DoPublish(s, d);
    PutMarks(s, t, d, e);
  }

  lemma ClaimMarks(s: Life, token: Token, e: nat)
    ensures MarksOf(DoClaim(s, token), e) == MarksOf(s, e)
  {
    hide MarksOf;
    if TokenValid(s, token) {
      var t := DoClaim(s, token);
      PutMarks(s, t, token.exec, e);
    }
  }

  lemma ReserveControlMarks(s: Life, allowPaused: bool, token: Option<Token>, e: nat)
    ensures MarksOf(DoReserveControl(s, allowPaused, token), e) == MarksOf(s, e)
  {
    hide MarksOf, TokenValid, Admits;
    var t := DoReserveControl(s, allowPaused, token);
    if s.current.Some? && s.current.value in s.execs {
      PutMarks(s, t, s.current.value, e);
    } else {
      SameMarks(s, t, e);
    }
  }

  lemma ReleaseControlExec(s: Life, d: nat)
    requires d in s.execs
    ensures var t := DoReleaseControl(s, Some(d));
      && d in t.execs && (t == s || t.execs == s.execs[d := t.execs[d]])
      && ExecMarks(t.execs[d]) == ExecMarks(s.execs[d])
  {
    var x, t := s.execs[d], DoReleaseControl(s, Some(d));
    if Holds(s, d, {Controller}) {
      var y := t.execs[d];
      assert t == Put(s, d, y);
      assert y.beforeStart == x.beforeStart && y.aborted == x.aborted && y.delivered == x.delivered && y.terminalCause == x.terminalCause;
      hide DoReleaseControl;
    }
  }

  lemma ReleaseControlMarks(s: Life, exec: Option<nat>, e: nat)
    ensures MarksOf(DoReleaseControl(s, exec), e) == MarksOf(s, e)
  {
    hide MarksOf;
    if exec.Some? && exec.value in s.execs {
      ReleaseControlExec(s, exec.value);
      hide DoReleaseControl;
      PutMarks(s, DoReleaseControl(s, exec), exec.value, e);
    } else {
      SameMarks(s, DoReleaseControl(s, exec), e);
    }
  }

  lemma CloseTakeMarks(s: Life, e: nat)
    ensures MarksOf(DoCloseTake(s), e) == MarksOf(s, e)
  {
    hide MarksOf;
    var t := DoCloseTake(s);
    if s.current.Some? && s.current.value in s.execs {
      PutMarks(s, t, s.current.value, e);
    } else {
      SameMarks(s, t, e);
    }
  }

  lemma ReserveMarks(s: Life, e: nat)
    requires Inv(s)
    ensures MarksOf(DoReserve(s), e) == MarksOf(s, e)
  {
  }

  /** The remaining steps, which change one execution in place. */
  lemma CallbackStepMarks(s: Life, step: Step, d: nat, e: nat)
    requires d in s.execs
    requires step == BeginCallback(d) || step == EndCallback(d) || step == BeforeResume(d) || step == Deliver(d)
    ensures MarksOf(Take(s, step), e) == MarksAfter(s, step, e)
  {
    hide MarksOf, Usable;
    PutMarks(s, Take(s, step), d, e);
  }

  lemma AbortStepMarks(s: Life, step: Step, d: nat, e: nat)
    requires d in s.execs
    requires step == AbortStart(d) || step == AbortReturn(d) || step == AbortCheck(d)
    ensures MarksOf(Take(s, step), e) == MarksAfter(s, step, e)
  {
    hide MarksOf, Usable;
    PutMarks(s, Take(s, step), d, e);
  }

  lemma AnswerStepMarks(s: Life, step: Step, d: nat, e: nat)
    requires d in s.execs
    requires step == AbortAnswered(d) || step == AbortFailed(d)
    ensures MarksOf(Take(s, step), e) == MarksAfter(s, step, e)
  {
    hide MarksOf;
    PutMarks(s, Take(s, step), d, e);
  }

  lemma OwnerStepMarks(s: Life, step: Step, d: nat, e: nat)
    requires d in s.execs
    requires step == BeginCallback(d) || step == EndCallback(d) || step == BeforeResume(d) || step == Deliver(d)
          || step == AbortStart(d) || step == AbortReturn(d) || step == AbortCheck(d) || step == AbortAnswered(d) || step == AbortFailed(d)
    ensures MarksOf(Take(s, step), e) == MarksAfter(s, step, e)
  {
    hide *;
    if step.AbortStart? || step.AbortReturn? || step.AbortCheck? { AbortStepMarks(s, step, d, e); }
    else if step.AbortAnswered? || step.AbortFailed? { AnswerStepMarks(s, step, d, e); }
    else { CallbackStepMarks(s, step, d, e); }
  }

  lemma SessionStepMarks(s: Life, step: Step, e: nat)
    requires step.Tick? || step.CloseAttempt? || step.CloseRelease? || step.CloseSettle?
    ensures MarksOf(Take(s, step), e) == MarksAfter(s, step, e)
  {
    hide MarksOf;
    SameMarks(s, Take(s, step), e);
  }

  /** A step on an execution that does not exist does nothing. */
  lemma NobodyMarks(s: Life, step: Step, e: nat)
    requires step.BeginCallback? || step.EndCallback? || step.BeforeResume? || step.Deliver? || step.AbortStart?
          || step.AbortReturn? || step.AbortCheck? || step.AbortAnswered? || step.AbortFailed?
    requires step.e !in s.execs
    ensures MarksOf(Take(s, step), e) == MarksAfter(s, step, e)
  {
    hide MarksOf;
  }

  lemma StepMarks(s: Life, step: Step, e: nat)
    requires Inv(s)
    ensures MarksOf(Take(s, step), e) == MarksAfter(s, step, e)
  {
    hide MarksOf, Inv, DoBegin, DoFinish, DoRequestStop, DoStopTimer, DoForce, DoForceResolve, DoTerminate, DoPublish, DoClaim;
    hide DoReserveControl, DoReleaseControl, DoCloseTake, DoReserve, Put, Usable;
    match step
    case Begin(d, send, ended, p, gap) => if Holds(s, d, {Driver}) { BeginMarks(s, d, send, ended, p, gap, e); }
    case Finish(d, failed) => if d in s.execs { FinishMarks(s, d, failed, e); }
    case RequestStop(d, p) => if d in s.execs { RequestMarks(s, d, p, e); }
    case StopTimer(d) => if d in s.execs { TimerMarks(s, d, e); }
    case Force(d, cause) => if d in s.execs { ForceMarks(s, d, cause, e); }
    case ForceResolve(d) => if d in s.execs { ForceResolveMarks(s, d, e); }
    case Terminate(cause) => TerminateMarks(s, cause, e);
    case Reserve => ReserveMarks(s, e);
    case Publish(d) => if d in s.execs { PublishMarks(s, d, e); }
    case Claim(t) => ClaimMarks(s, t, e);
    case ReserveControl(allowPaused, token) => ReserveControlMarks(s, allowPaused, token, e);
    case ReleaseControl(exec) => ReleaseControlMarks(s, exec, e);
    case CloseTake => CloseTakeMarks(s, e);
    case Tick(_) => SessionStepMarks(s, step, e);
    case CloseAttempt => SessionStepMarks(s, step, e);
    case CloseRelease => SessionStepMarks(s, step, e);
    case CloseSettle => SessionStepMarks(s, step, e);
    case _ => if step.e in s.execs { OwnerStepMarks(s, step, step.e, e); } else { NobodyMarks(s, step, e); }
  }

  lemma {:induction false} RunLast(s: Life, steps: seq<Step>)
    requires steps != []
    ensures Run(s, steps) == Take(Run(s, steps[..|steps| - 1]), steps[|steps| - 1])
    decreases |steps|
  {
    hide Take;
    if |steps| > 1 {
      RunLast(Take(s, steps[0]), steps[1..]);
      assert steps[1..][..|steps| - 2] == steps[..|steps| - 1][1..];
    }
  }

  lemma AtPrefix(now: int, steps: seq<Step>, i: nat)
    requires i < |steps|
    ensures At(now, steps[..|steps| - 1], i) == At(now, steps, i)
  {
    assert steps[..|steps| - 1][..i] == steps[..i];
  }

  /** One more step adds what happens in it. */
  lemma WasMore(now: int, steps: seq<Step>, e: nat)
    requires steps != []
    ensures var init, last := steps[..|steps| - 1], steps[|steps| - 1];
      var s := Run(Init(now), init);
      && (WasStoppedAtBegin(now, steps, e) <==> WasStoppedAtBegin(now, init, e) || StoppedAtBegin(s, last, e))
      && (WasAborted(now, steps, e) <==> WasAborted(now, init, e) || AbortedAt(s, last, e))
      && (WasDelivered(now, steps, e) <==> WasDelivered(now, init, e) || DeliveredAt(s, last, e))
      && (WasEnded(now, steps, e) <==> WasEnded(now, init, e) || EndedAt(s, last, e))
  {
    hide StoppedAtBegin, AbortedAt, DeliveredAt, EndedAt, Run;
    var n, init := |steps| - 1, steps[..|steps| - 1];
    assert At(now, steps, n) == Run(Init(now), init);
    forall i | 0 <= i < n ensures At(now, init, i) == At(now, steps, i) && init[i] == steps[i] { AtPrefix(now, steps, i); }
    hide At;
    WasSplit(now, steps, e);
  }

  lemma WasSplit(now: int, steps: seq<Step>, e: nat)
    requires steps != []
    requires forall i | 0 <= i < |steps| - 1 :: At(now, steps[..|steps| - 1], i) == At(now, steps, i)
    ensures var init, last := steps[..|steps| - 1], steps[|steps| - 1];
      var s := At(now, steps, |steps| - 1);
      && (WasStoppedAtBegin(now, steps, e) <==> WasStoppedAtBegin(now, init, e) || StoppedAtBegin(s, last, e))
      && (WasAborted(now, steps, e) <==> WasAborted(now, init, e) || AbortedAt(s, last, e))
      && (WasDelivered(now, steps, e) <==> WasDelivered(now, init, e) || DeliveredAt(s, last, e))
      && (WasEnded(now, steps, e) <==> WasEnded(now, init, e) || EndedAt(s, last, e))
  {
    hide StoppedAtBegin, AbortedAt, DeliveredAt, EndedAt, At;
    var init := steps[..|steps| - 1];
    assert forall i | 0 <= i < |init| :: init[i] == steps[i];
  }

  /** In every run an execution carries exactly the marks of what happened to it. */
  lemma {:induction false} MarksExact(now: int, steps: seq<Step>, e: nat)
    ensures MarksOf(Run(Init(now), steps), e) ==
      Marks(WasStoppedAtBegin(now, steps, e), WasAborted(now, steps, e), WasDelivered(now, steps, e), WasEnded(now, steps, e))
    decreases |steps|
  {
    if steps != [] {
      hide *;
      var init := steps[..|steps| - 1];
      MarksExact(now, init, e);
      InvAt(now, init);
      StepMarks(Run(Init(now), init), steps[|steps| - 1], e);
      RunLast(Init(now), steps);
      WasMore(now, steps, e);
      AfterIs(Run(Init(now), init), steps[|steps| - 1], e);
    }
  }

  lemma AfterIs(s: Life, step: Step, e: nat)
    ensures var m, t := MarksOf(s, e), MarksAfter(s, step, e);
      && t.beforeStart == (m.beforeStart || StoppedAtBegin(s, step, e)) && t.aborted == (m.aborted || AbortedAt(s, step, e))
      && t.delivered == (m.delivered || DeliveredAt(s, step, e)) && t.ended == (m.ended || EndedAt(s, step, e))
  {
  }

  lemma InvAt(now: int, steps: seq<Step>)
    ensures Inv(Run(Init(now), steps))
  {
    hide Take, Run;
    RunKeeps(Init(now), steps);
  }

  // ----- how the finish of an execution reports its stop -----

  ghost predicate Open(s: Life, e: nat) {
    e in s.execs && s.execs[e].stop.Some? && s.execs[e].stop.value.resolvedClosed == 0
  }

  ghost predicate Resolved(s: Life, e: nat) {
    e in s.execs && s.execs[e].stop.Some? && s.execs[e].stop.value.resolvedClosed > 0
  }

  function KindOf(s: Life, e: nat): StopKind
    requires e in s.execs && s.execs[e].stop.Some?
  {
    s.execs[e].stop.value.kind
  }

  /**
    In every run: the finish of an execution resolves its open stop exactly if
    the execution is carried on by someone and no kill was claimed. It reports
    an abort if and only if the stop was found before anything was sent, or the
    worker answered an abort, or the stop's reason was delivered and the
    execution then failed or was ended; otherwise it reports that it finished.
  */
  lemma FinishReports(now: int, steps: seq<Step>, e: nat, failed: bool)
    requires Open(Run(Init(now), steps), e)
    ensures var s := Run(Init(now), steps);
      var t := Take(s, Finish(e, failed));
      && e in t.execs && t.execs[e].stop.Some?
      && (Resolved(t, e) <==> Holds(s, e, {Driver, Aborter, Terminator, Closer}) && !s.execs[e].stop.value.forceClaimed)
      && (Resolved(t, e) ==>
            KindOf(t, e) ==
              if || WasStoppedAtBegin(now, steps, e) || WasAborted(now, steps, e)
                 || (WasDelivered(now, steps, e) && (failed || WasEnded(now, steps, e)))
              then StopAborted else StopFinished)
  {
    MarksExact(now, steps, e);
    InvAt(now, steps);
    var s := Run(Init(now), steps);
    hide Run, WasStoppedAtBegin, WasAborted, WasDelivered, WasEnded;
    ExecAt(s, e);
    FinishKind(s, e, failed);
  }

  lemma FinishKind(s: Life, e: nat, failed: bool)
    requires Open(s, e) && ExecOk(s.execs[e], s.current == Some(e), s.clock)
    ensures var m, t := MarksOf(s, e), Take(s, Finish(e, failed));
      && e in t.execs && t.execs[e].stop.Some?
      && (Resolved(t, e) <==> Holds(s, e, {Driver, Aborter, Terminator, Closer}) && !s.execs[e].stop.value.forceClaimed)
      && (Resolved(t, e) ==>
            KindOf(t, e) == if m.beforeStart || m.aborted || (m.delivered && (failed || m.ended)) then StopAborted else StopFinished)
  {
  }

  // ----- every resolved stop is explained -----

  /** What the step that resolves a stop says about it. */
  ghost predicate Explains(now: int, steps: seq<Step>, i: nat, e: nat, kind: StopKind)
    requires i < |steps|
  {
    match steps[i]
    case Finish(d, failed) =>
      d == e && kind ==
        if || WasStoppedAtBegin(now, steps[..i], e) || WasAborted(now, steps[..i], e)
           || (WasDelivered(now, steps[..i], e) && (failed || WasEnded(now, steps[..i], e)))
        then StopAborted else StopFinished
    case ForceResolve(d) => d == e && kind == StopKilled
    case Force(d, _) => d == e && kind == StopFinished && (At(now, steps, i).current != Some(e) || At(now, steps, i).terminal.Some?)
    case AbortFailed(d) => d == e && kind == StopFinished && At(now, steps, i).terminal.Some?
    case _ => false
  }

  /** The steps that can resolve a stop. */
  ghost predicate Resolves(s: Life, step: Step, e: nat, kind: StopKind) {
    match step
    case Finish(d, _) => d == e
    case ForceResolve(d) => d == e && kind == StopKilled
    case Force(d, _) => d == e && kind == StopFinished && (s.current != Some(e) || s.terminal.Some?)
    case AbortFailed(d) => d == e && kind == StopFinished && s.terminal.Some?
    case _ => false
  }

  lemma BeginOpens(s: Life, step: Step, e: nat)
    requires step.Begin?
    ensures Resolved(Take(s, step), e) ==> Resolved(s, e)
  {
    hide DueDeadlines, OwnBound, Grace;
    if step.e != e || !Holds(s, e, {Driver}) || !Usable(s, e) {
    } else if s.execs[e].stop.None? && step.contextEnded {
      assert Take(s, step).execs[e].stop.value.resolvedClosed == 0;
    } else {
      assert Take(s, step).execs[e].stop == s.execs[e].stop;
    }
  }

  lemma RequestOpens(s: Life, step: Step, e: nat)
    requires (step.RequestStop? || step.StopTimer?) && Resolved(Take(s, step), e)
    ensures Resolved(s, e)
  {
    hide Shortened;
  }

  lemma ControlOpens(s: Life, step: Step, e: nat)
    requires step.Publish? || step.Claim? || step.ReserveControl? || step.ReleaseControl? || step.CloseTake? || step.Terminate?
    requires Resolved(Take(s, step), e)
    ensures Resolved(s, e)
  {
    hide Admits;
  }

  lemma ReserveOpens(s: Life, e: nat)
    requires Resolved(Take(s, Reserve), e)
    ensures Resolved(s, e)
  {
  }

  lemma OtherOpens(s: Life, step: Step, e: nat)
    requires step.Tick? || step.BeginCallback? || step.EndCallback? || step.BeforeResume? || step.Deliver?
          || step.AbortStart? || step.AbortReturn? || step.AbortCheck? || step.AbortAnswered?
          || step.CloseAttempt? || step.CloseRelease? || step.CloseSettle?
    requires Resolved(Take(s, step), e)
    ensures Resolved(s, e)
  {
  }

  lemma FinishResolves(s: Life, d: nat, failed: bool, e: nat)
    requires d in s.execs && !Resolved(s, e) && Resolved(DoFinish(s, d, failed), e)
    ensures d == e
  {
  }

  lemma ForceStop(s: Life, d: nat, cause: nat)
    requires d in s.execs && ExecOk(s.execs[d], s.current == Some(d), s.clock)
    ensures var x, t := s.execs[d], DoForce(s, d, cause);
      && d in t.execs && (t == s || t.execs == s.execs[d := t.execs[d]])
      && (Resolved(t, d) && !Resolved(s, d) ==>
            t.execs[d].stop.value.kind == StopFinished && (s.current != Some(d) || s.terminal.Some?))
  {
    hide StopOk;
  }

  lemma ForceResolves(s: Life, d: nat, cause: nat, e: nat)
    requires ExecsOk(s) && d in s.execs && !Resolved(s, e) && Resolved(DoForce(s, d, cause), e)
    ensures Resolves(s, Force(d, cause), e, KindOf(DoForce(s, d, cause), e))
  {
    ForceStop(s, d, cause);
    hide DoForce, ExecsOk;
  }

  lemma ForcedResolves(s: Life, d: nat, e: nat)
    requires d in s.execs && !Resolved(s, e) && Resolved(DoForceResolve(s, d), e)
    ensures Resolves(s, ForceResolve(d), e, KindOf(DoForceResolve(s, d), e))
  {
  }

  lemma AbortResolves(s: Life, d: nat, e: nat)
    requires !Resolved(s, e) && Resolved(Take(s, AbortFailed(d)), e)
    ensures Resolves(s, AbortFailed(d), e, KindOf(Take(s, AbortFailed(d)), e))
  {
  }

  lemma ResolverIs(s: Life, step: Step, e: nat)
    requires step.Finish? || step.Force? || step.ForceResolve? || step.AbortFailed?
    requires ExecsOk(s) && !Resolved(s, e) && Resolved(Take(s, step), e)
    ensures Resolves(s, step, e, KindOf(Take(s, step), e))
  {
    hide ExecsOk, DoFinish, DoForce, DoForceResolve, Put, Resolved, ResolveByAbort;
    match step
    case Finish(d, failed) => FinishResolves(s, d, failed, e);
    case Force(d, cause) => ForceResolves(s, d, cause, e);
    case ForceResolve(d) => ForcedResolves(s, d, e);
    case AbortFailed(d) => AbortResolves(s, d, e);
  }

  ghost predicate ExecsOk(s: Life) {
    forall e | e in s.execs :: ExecOk(s.execs[e], s.current == Some(e), s.clock)
  }

  lemma ResolvedBy(s: Life, step: Step, e: nat)
    requires Inv(s) && !Resolved(s, e) && Resolved(Take(s, step), e)
    ensures Resolves(s, step, e, KindOf(Take(s, step), e))
  {
    assert ExecsOk(s);
    hide *;
    match step
    case Finish(_, _) => ResolverIs(s, step, e);
    case Force(_, _) => ResolverIs(s, step, e);
    case ForceResolve(_) => ResolverIs(s, step, e);
    case AbortFailed(_) => ResolverIs(s, step, e);
    case Begin(_, _, _, _, _) => BeginOpens(s, step, e);
    case RequestStop(_, _) => RequestOpens(s, step, e);
    case StopTimer(_) => RequestOpens(s, step, e);
    case Publish(_) => ControlOpens(s, step, e);
    case Claim(_) => ControlOpens(s, step, e);
    case ReserveControl(_, _) => ControlOpens(s, step, e);
    case ReleaseControl(_) => ControlOpens(s, step, e);
    case CloseTake => ControlOpens(s, step, e);
    case Terminate(_) => ControlOpens(s, step, e);
    case Reserve => ReserveOpens(s, e);
    case _ => OtherOpens(s, step, e);
  }

  /**
    Main result: in every run a stop that is resolved was resolved at one of
    its steps, and its kind is what that step and what happened before it say.
  */
  lemma {:induction false} StopExplained(now: int, steps: seq<Step>, e: nat)
    requires Resolved(Run(Init(now), steps), e)
    ensures exists i | 0 <= i < |steps| ::
      && !Resolved(At(now, steps, i), e) && Resolved(Run(Init(now), steps[..i + 1]), e)
      && Explains(now, steps, i, e, KindOf(Run(Init(now), steps), e))
    decreases |steps|
  {
    if steps == [] {
      NothingResolved(now, e);
    } else {
      hide *;
      var n, init := |steps| - 1, steps[..|steps| - 1];
      var s := Run(Init(now), init);
      InvAt(now, init);
      RunLast(Init(now), steps);
      AtIs(now, steps);
      if Resolved(s, e) {
        StopExplained(now, init, e);
        var i :| 0 <= i < n && !Resolved(At(now, init, i), e) && Resolved(Run(Init(now), init[..i + 1]), e)
                 && Explains(now, init, i, e, KindOf(s, e));
        KindStays(s, steps[n], e);
        AtPrefix(now, steps, i);
        assert init[..i + 1] == steps[..i + 1];
        ExplainsMore(now, steps, i, e, KindOf(s, e));
      } else {
        ResolvedBy(s, steps[n], e);
        LastExplains(now, steps, e);
        assert steps[..n + 1] == steps;
      }
    }
  }

  lemma NothingResolved(now: int, e: nat)
    ensures !Resolved(Run(Init(now), []), e)
  {
  }

  lemma AtIs(now: int, steps: seq<Step>)
    requires steps != []
    ensures At(now, steps, |steps| - 1) == Run(Init(now), steps[..|steps| - 1])
  {
  }

  lemma KindStays(s: Life, step: Step, e: nat)
    requires Inv(s) && Resolved(s, e)
    ensures Resolved(Take(s, step), e) && KindOf(Take(s, step), e) == KindOf(s, e)
  {
    ExecAt(s, e);
    StepEvolves(s, step);
    assert Evolves(s.execs[e], Take(s, step).execs[e]);
  }

  lemma ExplainsMore(now: int, steps: seq<Step>, i: nat, e: nat, kind: StopKind)
    requires i < |steps| - 1 && Explains(now, steps[..|steps| - 1], i, e, kind)
    ensures Explains(now, steps, i, e, kind)
  {
    hide WasStoppedAtBegin, WasAborted, WasDelivered, WasEnded, At;
    var init := steps[..|steps| - 1];
    assert init[i] == steps[i] && init[..i] == steps[..i];
    AtPrefix(now, steps, i);
  }

  lemma LastExplains(now: int, steps: seq<Step>, e: nat)
    requires steps != [] && !Resolved(Run(Init(now), steps[..|steps| - 1]), e) && Resolved(Run(Init(now), steps), e)
    requires Resolves(Run(Init(now), steps[..|steps| - 1]), steps[|steps| - 1], e, KindOf(Run(Init(now), steps), e))
    ensures Explains(now, steps, |steps| - 1, e, KindOf(Run(Init(now), steps), e))
  {
    hide Run, Take, WasStoppedAtBegin, WasAborted, WasDelivered, WasEnded;
    var init, last := steps[..|steps| - 1], steps[|steps| - 1];
    RunLast(Init(now), steps);
    if last.Finish? {
      InvAt(now, init);
      FinishOpen(Run(Init(now), init), e, last.failed);
      FinishReports(now, init, e, last.failed);
    }
  }

  lemma FinishOpen(s: Life, e: nat, failed: bool)
    requires Inv(s) && !Resolved(s, e) && Resolved(Take(s, Finish(e, failed)), e)
    ensures Open(s, e)
  {
  }

  // ----- the end of a session -----

  /** Terminating sets the cause once, marks the current execution, and takes a paused one out of the caller's hands. */
  lemma TerminateTakesEffect(s: Life, cause: nat)
    requires Inv(s)
    ensures var t := Take(s, Terminate(cause));
      && t.terminal == Some(if s.terminal.Some? then s.terminal.value else cause) && t.doneClosed == 1
      && (s.current.Some? ==>
            var x, y := s.execs[s.current.value], t.execs[s.current.value];
            && t.current == s.current && y.terminalCause
            && (x.phase == Paused ==> y.phase == Aborting && y.owner == Terminator && y.operationDone))
  {
    if s.current.Some? { ExecAt(s, s.current.value); }
  }

  /** The steps that begin work of any kind. */
  predicate BeginsWork(step: Step) {
    || step.Reserve? || step.Begin? || step.BeginCallback? || step.BeforeResume? || step.Publish?
    || step.Claim? || step.ReserveControl? || step.AbortStart? || step.CloseTake? || step.CloseAttempt?
  }

  /** In every run, once the session has ended no step begins work again and the cause stays. */
  lemma EndedForGood(s: Life, steps: seq<Step>, step: Step)
    requires Inv(s) && s.terminal.Some? && BeginsWork(step)
    ensures var t := Run(s, steps); t.terminal == s.terminal && Take(t, step) == t
  {
    hide Take, Run, Inv;
    RunEvolves(s, steps);
    RefusedWhenEnded(Run(s, steps), step);
  }

  lemma RefusedWhenEnded(s: Life, step: Step)
    requires s.terminal.Some? && BeginsWork(step)
    ensures Take(s, step) == s
  {
  }

  /** While a close is under way nothing is reserved, claimed or controlled. */
  lemma ClosingAdmitsNothing(s: Life, step: Step)
    requires s.closing && (step.Reserve? || step.Claim? || step.ReserveControl?)
    ensures Take(s, step) == s
  {
  }

  /** A close takes the session exactly when it is idle or its execution is paused. */
  lemma CloseTakesExactly(s: Life)
    requires Inv(s) && s.closing && s.terminal.None? && s.control == Nobody
    ensures var t := Take(s, CloseTake);
      if s.current.None? then t.control == Closer
      else if s.execs[s.current.value].phase == Paused then
        t.current == s.current && t.execs[s.current.value].owner == Closer && t.execs[s.current.value].phase == Control
      else t == s
  {
    if s.current.Some? { ExecAt(s, s.current.value); }
  }

  /**
    A close of an idle session ends it with the close's cause and leaves nothing
    held; one that gives up before it could take the session leaves it as it was.
  */
  lemma CloseEnds(s: Life, cause: nat)
    requires Inv(s) && Admits(s) && s.current.None? && s.control == Nobody
    ensures Take(s, CloseAttempt).closing && Take(Take(s, CloseAttempt), CloseTake).control == Closer
    ensures Run(s, [CloseAttempt, CloseTake, Terminate(cause), CloseRelease, CloseSettle]) == s.(terminal := Some(cause), doneClosed := 1)
    ensures Run(s, [CloseAttempt, CloseSettle]) == s
  {
    hide *;
    CloseSteps(s, cause);
    RunTwo(s, CloseAttempt, CloseSettle);
    RunTwo(s, CloseAttempt, CloseTake);
    RunThreeMore(s, [CloseAttempt, CloseTake], Terminate(cause), CloseRelease, CloseSettle);
    assert [CloseAttempt, CloseTake] + [Terminate(cause), CloseRelease, CloseSettle]
        == [CloseAttempt, CloseTake, Terminate(cause), CloseRelease, CloseSettle];
  }

  lemma CloseSteps(s: Life, cause: nat)
    requires Inv(s) && Admits(s) && s.current.None? && s.control == Nobody
    ensures var a := s.(closing := true);
      var b := a.(control := Closer);
      var c := b.(terminal := Some(cause), doneClosed := 1);
      && Take(s, CloseAttempt) == a && Take(a, CloseSettle) == s && Take(a, CloseTake) == b
      && Take(b, Terminate(cause)) == c && Take(c, CloseRelease) == c.(control := Nobody)
      && Take(c.(control := Nobody), CloseSettle) == s.(terminal := Some(cause), doneClosed := 1)
  {
    assert s.doneClosed == 0;
    hide Inv;
  }

  lemma RunTwo(s: Life, a: Step, b: Step)
    ensures Run(s, [a, b]) == Take(Take(s, a), b)
  {
    hide *;
    RunTwoMore(s, [], a, b);
    RunNothing(s);
    assert [] + [a, b] == [a, b];
  }

  /** Nothing stands in the way of a control operation. */
  ghost predicate ControlFree(s: Life, allowPaused: bool, token: Option<Token>) {
    && s.terminal.None? && !s.closing && s.control == Nobody
    && (token.Some? ==> TokenValid(s, token.value))
    && (s.current.Some? ==> allowPaused && s.current.value in s.execs && s.execs[s.current.value].phase == Paused)
  }

  /**
    A control operation is admitted if and only if nothing stands in its way.
    Releasing it at once gives the session back as it was, unless the paused
    execution has a stop, and then hands it to an aborter instead.
  */
  lemma ControlRoundTrip(s: Life, allowPaused: bool, token: Option<Token>)
    requires Inv(s)
    ensures var t := Take(s, ReserveControl(allowPaused, token));
      && (t != s <==> ControlFree(s, allowPaused, token))
      && (ControlFree(s, allowPaused, token) && s.current.None? ==>
            t.control == Controller && Take(t, ReleaseControl(None)) == s)
      && (ControlFree(s, allowPaused, token) && s.current.Some? ==>
            var e := s.current.value;
            var u := Take(t, ReleaseControl(Some(e)));
            && t.execs[e].owner == Controller
            && if s.execs[e].stop.None? then u == s
               else u == Put(s, e, s.execs[e].(phase := Aborting, operationDone := true, owner := Aborter)))
  {
    if s.current.Some? {
      var e := s.current.value;
      ExecAt(s, e);
      var t := Take(s, ReserveControl(allowPaused, token));
      if ControlFree(s, allowPaused, token) {
        assert Holds(t, e, {Controller});
        PutBack(s, e);
      }
    }
  }

  lemma PutBack(s: Life, e: nat)
    requires e in s.execs
    ensures Put(s, e, s.execs[e]) == s
    ensures forall x, y :: Put(Put(s, e, x), e, y) == Put(s, e, y)
  {
    assert s.execs[e := s.execs[e]] == s.execs;
    forall x, y ensures Put(Put(s, e, x), e, y) == Put(s, e, y) {
      assert s.execs[e := x][e := y] == s.execs[e := y];
    }
  }

  /** What its driver may do with an execution that is not stopped, or whose stop can be caught. */
  ghost predicate MayGoOn(s: Life, e: nat) {
    && Holds(s, e, {Driver}) && s.terminal.None? && !s.execs[e].terminalCause && s.current == Some(e)
    && (s.execs[e].stop.Some? && s.execs[e].stop.value.d.requested ==> s.execs[e].stop.value.catchable)
  }

  /** A callback begins, and a resume goes out, if and only if the driver may go on; the callback ends where it began. */
  lemma CallbackRoundTrip(s: Life, e: nat)
    requires Inv(s)
    ensures var t, u := Take(s, BeginCallback(e)), Take(s, BeforeResume(e));
      if MayGoOn(s, e) then
        && t == Put(s, e, s.execs[e].(phase := Callback)) && u == Put(s, e, s.execs[e].(phase := Executing))
        && Take(t, EndCallback(e)) == u
      else t == s && u == s
  {
    if e in s.execs {
      ExecAt(s, e);
      PutBack(s, e);
    }
  }

  /** An execution that nothing has stopped is sent, or prepared, as its driver asked. */
  lemma BeginGoesOn(s: Life, e: nat, send: bool, p: Policy, gap: nat)
    requires Inv(s) && Holds(s, e, {Driver}) && Usable(s, e) && !StopRequested(s.execs[e])
    ensures Take(s, Begin(e, send, false, p, gap)) == Put(s, e, s.execs[e].(phase := if send then Executing else Preparing))
  {
  }

  /** The answer to an abort counts only if it is back before the deadline it was sent with, which was the kill's. */
  lemma AbortInTime(s: Life, e: nat, d: nat)
    requires Inv(s) && Holds(s, e, {Driver, Aborter}) && Usable(s, e) && s.execs[e].stop.Some?
    ensures var t := Take(Take(Take(s, AbortStart(e)), Tick(d)), AbortReturn(e));
      && e in t.execs && t.execs[e].phase == Aborting
      && (t.execs[e].wire == InTime <==> s.clock + d < s.execs[e].stop.value.d.killAt)
  {
  }

  /** A request that has come due is entered when the timer fires: a paused execution goes to an aborter. */
  lemma TimerRequests(s: Life, e: nat)
    requires Inv(s) && Open(s, e) && s.execs[e].stop.value.d.requestAt <= s.clock && s.execs[e].phase != Finished
    ensures var x, t := s.execs[e], Take(s, StopTimer(e));
      && e in t.execs && t.execs[e].stop.Some? && t.execs[e].stop.value.d.requested
      && (x.phase == Paused && !x.stop.value.d.requested ==> t.execs[e].phase == Aborting && t.execs[e].owner == Aborter)
  {
  }

  /**
    In every run, once a stop has been requested nothing is published or claimed
    and nothing is sent for the first time; a callback begins and a resume is
    sent only if the stop lets its reason be caught.
  */
  lemma StoppedForGood(s: Life, steps: seq<Step>, e: nat, step: Step)
    requires Inv(s) && e in s.execs && StopRequested(s.execs[e])
    ensures var x, t := s.execs[e], Run(s, steps);
      && e in t.execs && StopRequested(t.execs[e]) && t.execs[e].phase != Paused
      && (step == Publish(e) || (step.Claim? && step.t.exec == e) ==> Take(t, step) == t)
      && (step.Begin? && step.e == e ==> Take(t, step).execs[e].phase == t.execs[e].phase)
      && (step == BeginCallback(e) || step == BeforeResume(e) ==> Take(t, step) == t || x.stop.value.catchable)
  {
    var t := Run(s, steps);
    RunEvolves(s, steps);
    RunKeeps(s, steps);
    assert Evolves(s.execs[e], t.execs[e]) && t.execs[e].stop.value.catchable == s.execs[e].stop.value.catchable;
    ExecAt(t, e);
    hide Inv, LifeEvolves, Run, ExecOk;
    StoppedStep(t, e, step);
  }

  lemma StoppedStep(s: Life, e: nat, step: Step)
    requires e in s.execs && StopRequested(s.execs[e]) && s.execs[e].phase != Paused
    ensures step == Publish(e) || (step.Claim? && step.t.exec == e) ==> Take(s, step) == s
    ensures step.Begin? && step.e == e ==> e in Take(s, step).execs && Take(s, step).execs[e].phase == s.execs[e].phase
    ensures step == BeginCallback(e) || step == BeforeResume(e) ==> Take(s, step) == s || s.execs[e].stop.value.catchable
  {
  }

  // ----- each kind is reached -----

  /** An abort that is answered, a run that ends on its own, and a kill, after the same stop. */
  lemma KindsReached(now: int)
    ensures var p := Policy(0, 1, false);
      && Reports(Run(Init(now), AbortedInTime(p) + [AbortAnswered(1), Finish(1, false)]), 1, StopAborted)
      && Reports(Run(Init(now), Asked(p) + [Finish(1, false)]), 1, StopFinished)
      && Reports(Run(Init(now), Asked(p) + [Tick(1), Force(1, 0), ForceResolve(1)]), 1, StopKilled)
  {
    var p := Policy(0, 1, false);
    CheckReached(now, p);
    AskedReached(now, p);
    AbortedKind(now, p);
    FinishedKind(now, p);
    KilledKind(now, p);
    hide *;
    RunTwoMore(Init(now), AbortedInTime(p), AbortAnswered(1), Finish(1, false));
    RunOneMore(Init(now), Asked(p), Finish(1, false));
    RunThreeMore(Init(now), Asked(p), Tick(1), Force(1, 0), ForceResolve(1));
  }

  ghost predicate Reports(s: Life, e: nat, kind: StopKind) {
    Resolved(s, e) && s.execs[e].stop.value.kind == kind
  }

  function Asked(p: Policy): seq<Step> {
    [Reserve, Begin(1, true, false, p, 0), RequestStop(1, p)]
  }

  /** The first execution with its stop requested. */
  function Requested(now: int, p: Policy): Life {
    var stop := NewStop(p, NewDeadlines(p, now).(requested := true), OwnBound(p, now), false);
    Put(Sending(now), 1, Sending(now).execs[1].(stop := stop))
  }

  lemma AskedReached(now: int, p: Policy)
    requires p == Policy(0, 1, false)
    ensures Run(Init(now), Asked(p)) == Requested(now, p)
  {
    SendingReached(now, p);
    RequestedReached(now, p);
    hide *;
    RunCons(Init(now), Reserve, [Begin(1, true, false, p, 0), RequestStop(1, p)]);
    RunCons(Take(Init(now), Reserve), Begin(1, true, false, p, 0), [RequestStop(1, p)]);
    RunCons(Sending(now), RequestStop(1, p), []);
    RunNothing(Requested(now, p));
    AskedIs(p);
    assert [RequestStop(1, p)] + [] == [RequestStop(1, p)];
    assert [Begin(1, true, false, p, 0)] + [RequestStop(1, p)] == [Begin(1, true, false, p, 0), RequestStop(1, p)];
  }

  lemma AskedIs(p: Policy)
    ensures Asked(p) == [Reserve] + [Begin(1, true, false, p, 0), RequestStop(1, p)]
  {
  }

  lemma RequestedReached(now: int, p: Policy)
    requires p == Policy(0, 1, false)
    ensures Take(Sending(now), RequestStop(1, p)) == Requested(now, p)
  {
    var s, x := Sending(now), Sending(now).execs[1];
    var stop := NewStop(p, NewDeadlines(p, now).(requested := true), OwnBound(p, now), false);
    assert Take(s, RequestStop(1, p)) == Put(s, 1, x.(stop := stop));
  }

  lemma AbortedKind(now: int, p: Policy)
    ensures var t := Take(Take(Stopping(now, p, OffWire, true), AbortAnswered(1)), Finish(1, false));
      Reports(t, 1, StopAborted)
  {
    var s := Take(Stopping(now, p, OffWire, true), AbortAnswered(1));
    assert s.execs[1].aborted && s.execs[1].owner == Driver && s.execs[1].phase == Aborting && !s.execs[1].abortChecked;
  }

  lemma FinishedKind(now: int, p: Policy)
    ensures var t := Take(Requested(now, p), Finish(1, false)); Reports(t, 1, StopFinished)
  {
  }

  lemma KilledKind(now: int, p: Policy)
    requires p == Policy(0, 1, false)
    ensures var t := Take(Take(Take(Requested(now, p), Tick(1)), Force(1, 0)), ForceResolve(1));
      Reports(t, 1, StopKilled)
  {
    var s := Take(Requested(now, p), Tick(1));
    assert Claims(s, 1);
    ClaimFacts(s, 1, 0);
  }

  lemma RunOneMore(s: Life, steps: seq<Step>, a: Step)
    ensures Run(s, steps + [a]) == Take(Run(s, steps), a)
  {
    hide Take, Run;
    RunLast(s, steps + [a]);
    assert (steps + [a])[..|steps|] == steps;
  }

  lemma RunTwoMore(s: Life, steps: seq<Step>, a: Step, b: Step)
    ensures Run(s, steps + [a, b]) == Take(Take(Run(s, steps), a), b)
  {
    hide Take, Run;
    RunOneMore(s, steps, a);
    RunOneMore(s, steps + [a], b);
    assert steps + [a] + [b] == steps + [a, b];
  }

  lemma RunThreeMore(s: Life, steps: seq<Step>, a: Step, b: Step, c: Step)
    ensures Run(s, steps + [a, b, c]) == Take(Take(Take(Run(s, steps), a), b), c)
  {
    hide Take, Run;
    RunTwoMore(s, steps, a, b);
    RunOneMore(s, steps + [a, b], c);
    assert steps + [a, b] + [c] == steps + [a, b, c];
  }
}
