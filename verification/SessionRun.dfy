/**
  The session lifecycle (lifecycle.go, stop.go, session_control.go,
  snapshot.go) as a state machine with one step per critical section of
  life.mu, and what every interleaving keeps.
*/
module SessionRun {
  import opened Prelude
  import opened Stop

  datatype Phase = Starting | Preparing | Executing | Callback | Paused | Control | Aborting | Finished

  /**
    Which goroutine carries the execution on: the one that drives it, one
    that aborts it after a pause, a control operation, a close, or a
    termination. A paused or finished execution belongs to nobody.
  */
  datatype Owner = Nobody | Driver | Aborter | Controller | Closer | Terminator

  datatype StopKind = StopPending | StopAborted | StopKilled | StopFinished

  /**
    The execution's stop. Four fields are history: bounds are the kill times
    its callers asked for, late marks deadlines made out of order,
    checkedAtClaim that an abort was past its check when the kill was claimed,
    byAbort that a failing abort resolved the stop.
  */
  datatype StopReq = StopReq(
    d: Deadlines,
    catchable: bool,
    forceClaimed: bool,
    kind: StopKind,
    resolvedClosed: nat,
    bounds: set<int>,
    late: bool,
    checkedAtClaim: bool,
    byAbort: bool)

  /** Where an abort stands: its turn runs under the kill deadline it read, and may come back before it. */
  datatype AbortWire = OffWire | OnWire(deadline: int) | InTime

  datatype Exec = Exec(
    phase: Phase,
    owner: Owner,
    sequence: nat,
    operationDone: bool,
    doneClosed: nat,
    stop: Option<StopReq>,
    terminalCause: bool,
    beforeStart: bool,
    aborted: bool,
    delivered: bool,
    claimed: set<nat>,
    abortChecked: bool,
    wire: AbortWire)

  datatype Life = Life(
    execs: map<nat, Exec>,
    nextID: nat,
    current: Option<nat>,
    control: Owner,
    closing: bool,
    terminal: Option<nat>,
    doneClosed: nat,
    clock: int)

  datatype Token = Token(exec: nat, sequence: nat, used: bool)

  datatype Step =
    | Tick(d: nat)
    | Reserve
    | Begin(e: nat, send: bool, contextEnded: bool, p: Policy, gap: nat)
    | BeginCallback(e: nat)
    | EndCallback(e: nat)
    | BeforeResume(e: nat)
    | Deliver(e: nat)
    | Publish(e: nat)
    | Claim(t: Token)
    | ReserveControl(allowPaused: bool, token: Option<Token>)
    | ReleaseControl(exec: Option<nat>)
    | Finish(e: nat, failed: bool)
    | Terminate(cause: nat)
    | RequestStop(e: nat, p: Policy)
    | StopTimer(e: nat)
    | Force(e: nat, cause: nat)
    | ForceResolve(e: nat)
    | AbortStart(e: nat)
    | AbortReturn(e: nat)
    | AbortCheck(e: nat)
    | AbortAnswered(e: nat)
    | AbortFailed(e: nat)
    | CloseAttempt
    | CloseTake
    | CloseRelease
    | CloseSettle

  // ----- pieces shared by the sections -----

  function Put(s: Life, e: nat, x: Exec): Life {
    s.(execs := s.execs[e := x])
  }

  /** e is carried on by one of these, and not from inside an abort that has yet to act on its answer. */
  predicate Holds(s: Life, e: nat, who: set<Owner>) {
    e in s.execs && s.execs[e].owner in who && !s.execs[e].abortChecked
  }

  /** abortExecution is past its check that the session has not ended, and acts on the answer next. */
  predicate Checked(s: Life, e: nat) {
    e in s.execs && s.execs[e].abortChecked
  }

  // admissionErrorLocked
  predicate Admits(s: Life) {
    s.terminal.None? && !s.closing
  }

  // executionErrorLocked
  predicate Usable(s: Life, e: nat)
    requires e in s.execs
  {
    s.terminal.None? && !s.execs[e].terminalCause && s.current == Some(e) && s.execs[e].phase != Finished
  }

  predicate StopRequested(x: Exec) {
    x.stop.Some? && x.stop.value.d.requested
  }

  /** enterRequestLocked: a paused execution is handed to an aborter. */
  function EnterRequest(x: Exec): Exec
    requires x.stop.Some?
  {
    if x.stop.value.d.requested then x
    else
      var y := x.(stop := Some(x.stop.value.(d := x.stop.value.d.(requested := true))));
      if y.phase == Paused then y.(phase := Aborting, operationDone := true, owner := Aborter) else y
  }

  // resolveStopLocked
  function Resolve(x: Exec, kind: StopKind): Exec {
    if x.stop.None? || x.stop.value.resolvedClosed > 0 then x
    else x.(stop := Some(x.stop.value.(kind := kind, resolvedClosed := x.stop.value.resolvedClosed + 1)))
  }

  /** The end of an abort that failed. */
  function ResolveByAbort(x: Exec): Exec {
    var y := x.(abortChecked := false);
    if x.stop.None? || x.stop.value.resolvedClosed > 0 then y
    else y.(stop := Some(Resolve(y, StopFinished).stop.value.(byAbort := true)))
  }

  function NewStop(p: Policy, d: Deadlines, bound: int, late: bool): Option<StopReq> {
    Some(StopReq(d, p.catchable, false, StopPending, 0, {bound}, late, false, false))
  }

  /** The stop of an execution after one more caller. */
  function StopAfter(x: Exec, p: Policy, clock: int): Option<StopReq> {
    if x.stop.None? then NewStop(p, NewDeadlines(p, clock), OwnBound(p, clock), false)
    else Some(x.stop.value.(d := Shortened(x.stop.value.d, p, clock), bounds := x.stop.value.bounds + {OwnBound(p, clock)}))
  }

  // ----- sections -----

  function DoReserve(s: Life): Life {
    if !Admits(s) || s.current.Some? || s.control != Nobody then s
    else
      var id := s.nextID + 1;
      Put(s, id, Exec(Starting, Driver, 0, true, 0, None, false, false, false, false, {}, false, OffWire)).(nextID := id, current := Some(id))
  }

  /** beginExecution and beginSend, with stopBeforeStartLocked. */
  function DoBegin(s: Life, e: nat, send: bool, contextEnded: bool, p: Policy, gap: nat): Life
    requires e in s.execs
  {
    if !Usable(s, e) then s
    else
      var x := s.execs[e];
      var y := if x.stop.None? && contextEnded
               then x.(stop := NewStop(p, DueDeadlines(p, s.clock, s.clock + gap), OwnBound(p, s.clock), gap > p.drain + Grace(p)))
               else x;
      var t := if y == x then s else s.(clock := s.clock + gap);
      if StopRequested(y) then Put(t, e, y.(beforeStart := true))
      else Put(t, e, y.(phase := if send then Executing else Preparing))
  }

  function DoPublish(s: Life, e: nat): Life
    requires e in s.execs
  {
    var x := s.execs[e];
    if !Usable(s, e) || StopRequested(x) then s
    else Put(s, e, x.(sequence := x.sequence + 1, phase := Paused, operationDone := false, owner := Nobody))
  }

  // snapshotErrorLocked
  predicate TokenValid(s: Life, t: Token) {
    && !t.used && t.exec in s.execs
    && !s.execs[t.exec].terminalCause && s.terminal.None?
    && s.current == Some(t.exec) && t.sequence == s.execs[t.exec].sequence
    && s.execs[t.exec].phase == Paused && Admits(s)
  }

  function DoClaim(s: Life, t: Token): Life {
    if !TokenValid(s, t) then s
    else
      var x := s.execs[t.exec];
      Put(s, t.exec, x.(phase := Executing, operationDone := true, owner := Driver, claimed := x.claimed + {t.sequence}))
  }

  function DoReserveControl(s: Life, allowPaused: bool, token: Option<Token>): Life {
    if (token.Some? && !TokenValid(s, token.value)) || !Admits(s) || s.control != Nobody then s
    else if s.current.None? then s.(control := Controller)
    else if s.current.value !in s.execs || !allowPaused || s.execs[s.current.value].phase != Paused then s
    else
      var e := s.current.value;
      Put(s, e, s.execs[e].(phase := Control, operationDone := true, owner := Controller))
  }

  /** The release that reserveControlFor returns. */
  function DoReleaseControl(s: Life, exec: Option<nat>): Life {
    if exec.None? then (if s.control == Controller then s.(control := Nobody) else s)
    else if !Holds(s, exec.value, {Controller}) then s
    else
      var x := s.execs[exec.value];
      if s.terminal.Some? then Put(s, exec.value, x.(phase := Aborting, owner := Terminator))
      else if x.stop.Some? then Put(s, exec.value, x.(phase := Aborting, owner := Aborter))
      else Put(s, exec.value, x.(phase := Paused, operationDone := false, owner := Nobody))
  }

  /** finishExecution; a second call finds the execution finished and does nothing. */
  function DoFinish(s: Life, e: nat, failed: bool): Life
    requires e in s.execs
  {
    var x := s.execs[e];
    if x.phase == Finished then s
    else
      var y := x.(phase := Finished, operationDone := false, owner := Nobody, doneClosed := x.doneClosed + 1);
      var kind := if x.beforeStart || x.aborted || (x.delivered && (failed || x.terminalCause)) then StopAborted else StopFinished;
      var z := if x.stop.Some? && !x.stop.value.forceClaimed then Resolve(y, kind) else y;
      Put(s, e, z).(current := if s.current == Some(e) then None else s.current)
  }

  function SetTerminal(s: Life, cause: nat): Life {
    if s.terminal.Some? then s else s.(terminal := Some(cause), doneClosed := s.doneClosed + 1)
  }

  function DoTerminate(s: Life, cause: nat): Life {
    var t := SetTerminal(s, cause);
    if s.current.None? || s.current.value !in s.execs then t
    else
      var e := s.current.value;
      var x := s.execs[e].(terminalCause := true);
      Put(t, e, if x.phase == Paused then x.(phase := Aborting, operationDone := true, owner := Terminator) else x)
  }

  function DoRequestStop(s: Life, e: nat, p: Policy): Life
    requires e in s.execs
  {
    var x := s.execs[e];
    if (x.stop.Some? && x.stop.value.resolvedClosed > 0) || x.phase == Finished || (s.current != Some(e) && x.stop.None?)
       || (x.terminalCause && x.stop.None?)
    then s
    else
      var req := StopAfter(x, p, s.clock);
      var y := x.(stop := req);
      Put(s, e, if req.value.d.requestAt <= s.clock then EnterRequest(y) else y)
  }

  /** watchStop when its timer fires before the request. */
  function DoStopTimer(s: Life, e: nat): Life
    requires e in s.execs
  {
    var x := s.execs[e];
    if x.stop.None? || x.stop.value.resolvedClosed > 0 || s.clock < x.stop.value.d.requestAt || x.phase == Finished then s
    else Put(s, e, EnterRequest(x))
  }

  /** forceExecution up to its first unlock. */
  function DoForce(s: Life, e: nat, cause: nat): Life
    requires e in s.execs
  {
    var x := s.execs[e];
    if x.stop.None? || x.stop.value.resolvedClosed > 0 || x.stop.value.forceClaimed then s
    else if s.current != Some(e) || x.phase == Finished || s.terminal.Some? then Put(s, e, Resolve(x, StopFinished))
    else if s.clock < x.stop.value.d.killAt then s
    else Put(SetTerminal(s, cause), e, x.(terminalCause := true, stop := Some(x.stop.value.(forceClaimed := true, kind := StopKilled, checkedAtClaim := x.abortChecked))))
  }

  function DoForceResolve(s: Life, e: nat): Life
    requires e in s.execs
  {
    var x := s.execs[e];
    if x.stop.Some? && x.stop.value.forceClaimed then Put(s, e, Resolve(x, StopKilled)) else s
  }

  function DoCloseTake(s: Life): Life {
    if s.terminal.Some? || !s.closing || s.control != Nobody then s
    else if s.current.None? then s.(control := Closer)
    else if s.current.value !in s.execs || s.execs[s.current.value].operationDone then s
    else Put(s, s.current.value, s.execs[s.current.value].(phase := Control, operationDone := true, owner := Closer))
  }

  function Take(s: Life, step: Step): Life {
    match step
    case Tick(d) => s.(clock := s.clock + d)
    case Reserve => DoReserve(s)
    case Begin(e, send, ended, p, gap) => if Holds(s, e, {Driver}) then DoBegin(s, e, send, ended, p, gap) else s
    case BeginCallback(e) =>
      if Holds(s, e, {Driver}) && Usable(s, e) && !(StopRequested(s.execs[e]) && !s.execs[e].stop.value.catchable)
      then Put(s, e, s.execs[e].(phase := Callback)) else s
    case EndCallback(e) => if Holds(s, e, {Driver}) then Put(s, e, s.execs[e].(phase := Executing)) else s
    case BeforeResume(e) =>
      if Holds(s, e, {Driver}) && Usable(s, e) && !(StopRequested(s.execs[e]) && !s.execs[e].stop.value.catchable)
      then Put(s, e, s.execs[e].(phase := Executing)) else s
    case Deliver(e) => if Holds(s, e, {Driver}) && StopRequested(s.execs[e]) then Put(s, e, s.execs[e].(delivered := true)) else s
    case Publish(e) => if Holds(s, e, {Driver}) then DoPublish(s, e) else s
    case Claim(t) => DoClaim(s, t)
    case ReserveControl(allowPaused, token) => DoReserveControl(s, allowPaused, token)
    case ReleaseControl(exec) => DoReleaseControl(s, exec)
    case Finish(e, failed) => if Holds(s, e, {Driver, Aborter, Terminator, Closer}) then DoFinish(s, e, failed) else s
    case Terminate(cause) => DoTerminate(s, cause)
    case RequestStop(e, p) => if e in s.execs then DoRequestStop(s, e, p) else s
    case StopTimer(e) => if e in s.execs then DoStopTimer(s, e) else s
    case Force(e, cause) => if e in s.execs then DoForce(s, e, cause) else s
    case ForceResolve(e) => if e in s.execs then DoForceResolve(s, e) else s
    case AbortStart(e) =>
      if Holds(s, e, {Driver, Aborter}) && Usable(s, e) && s.execs[e].stop.Some?
      then Put(s, e, s.execs[e].(phase := Aborting, wire := OnWire(s.execs[e].stop.value.d.killAt))) else s
    case AbortReturn(e) =>
      if Holds(s, e, {Driver, Aborter}) && s.execs[e].wire.OnWire? && s.clock < s.execs[e].wire.deadline
      then Put(s, e, s.execs[e].(wire := InTime)) else s
    case AbortCheck(e) =>
      if Holds(s, e, {Driver, Aborter}) && s.execs[e].phase == Aborting && s.execs[e].stop.Some? && s.execs[e].wire == InTime && s.terminal.None?
      then Put(s, e, s.execs[e].(abortChecked := true, wire := OffWire)) else s
    case AbortAnswered(e) => if Checked(s, e) then Put(s, e, s.execs[e].(aborted := true, abortChecked := false)) else s
    case AbortFailed(e) =>
      if Checked(s, e) && s.terminal.Some? then Put(s, e, ResolveByAbort(s.execs[e])) else s
    case CloseAttempt => if s.terminal.Some? || s.closing then s else s.(closing := true)
    case CloseTake => DoCloseTake(s)
    case CloseRelease => if s.control == Closer then s.(control := Nobody) else s
    case CloseSettle => s.(closing := false)
  }

  function Run(s: Life, steps: seq<Step>): Life
    decreases |steps|
  {
    if steps == [] then s else Run(Take(s, steps[0]), steps[1..])
  }

  function Init(now: int): Life {
    Life(map[], 0, None, Nobody, false, None, 0, now)
  }

  // ----- what every state keeps -----

  ghost predicate StopOk(st: StopReq, clock: int) {
    && st.resolvedClosed <= 1
    && (st.d.requestAt <= st.d.killAt <==> !st.late)
    && (st.late ==> st.d.requested)
    && (st.d.requested ==> st.d.requestAt <= clock)
    && (forall b | b in st.bounds :: st.d.killAt <= b)
  }

  ghost predicate ExecOk(x: Exec, current: bool, clock: int) {
    && (x.phase == Finished <==> !current)
    && x.doneClosed == (if x.phase == Finished then 1 else 0)
    && (x.operationDone <==> x.phase != Paused && x.phase != Finished)
    && (x.owner == Nobody <==> x.phase == Paused || x.phase == Finished)
    && (x.owner == Controller || x.owner == Closer <==> x.phase == Control)
    && (forall q | q in x.claimed :: q <= x.sequence)
    && (x.phase == Paused || x.phase == Control ==> x.sequence !in x.claimed)
    && (x.stop.Some? ==> StopOk(x.stop.value, clock))
    && (StopRequested(x) ==> x.phase != Paused)
    && (x.abortChecked ==> x.phase == Aborting && x.owner in {Driver, Aborter} && x.stop.Some?)
  }

  ghost predicate Inv(s: Life) {
    && s.doneClosed == (if s.terminal.Some? then 1 else 0)
    && (s.current.Some? ==> s.current.value in s.execs && s.control == Nobody)
    && (s.control in {Nobody, Controller, Closer})
    && (forall e | e in s.execs :: e <= s.nextID && ExecOk(s.execs[e], s.current == Some(e), s.clock))
  }

  lemma PutKeeps(s: Life, e: nat, x: Exec)
    requires Inv(s) && e in s.execs && ExecOk(x, s.current == Some(e), s.clock)
    ensures Inv(Put(s, e, x))
  {
  }

  lemma ClockKeeps(s: Life, d: nat)
    requires Inv(s)
    ensures Inv(s.(clock := s.clock + d))
  {
    var t := s.(clock := s.clock + d);
    forall e | e in t.execs ensures e <= t.nextID && ExecOk(t.execs[e], t.current == Some(e), t.clock) {
      assert ExecOk(s.execs[e], s.current == Some(e), s.clock);
    }
  }

  lemma TerminalKeeps(s: Life, cause: nat)
    requires Inv(s)
    ensures Inv(SetTerminal(s, cause))
  {
  }

  lemma EnterOk(x: Exec, clock: int)
    requires ExecOk(x, true, clock) && x.stop.Some? && x.stop.value.d.requestAt <= clock
    ensures ExecOk(EnterRequest(x), true, clock)
  {
  }

  lemma ResolveOk(x: Exec, current: bool, clock: int, kind: StopKind)
    requires ExecOk(x, current, clock)
    ensures ExecOk(Resolve(x, kind), current, clock)
  {
  }

  lemma BeginKeeps(s: Life, e: nat, send: bool, ended: bool, p: Policy, gap: nat)
    requires Inv(s) && Holds(s, e, {Driver})
    ensures Inv(DoBegin(s, e, send, ended, p, gap))
  {
    hide Put;
    if Usable(s, e) {
      var x := s.execs[e];
      if x.stop.None? && ended {
        DueInOrder(p, s.clock, s.clock + gap);
        ClockKeeps(s, gap);
        var t := s.(clock := s.clock + gap);
        var y := x.(stop := NewStop(p, DueDeadlines(p, s.clock, s.clock + gap), OwnBound(p, s.clock), gap > p.drain + Grace(p)));
        PutKeeps(t, e, y.(beforeStart := true));
      } else if StopRequested(x) {
        PutKeeps(s, e, x.(beforeStart := true));
      } else {
        PutKeeps(s, e, x.(phase := if send then Executing else Preparing));
      }
    }
  }

  lemma StopAfterOk(x: Exec, p: Policy, clock: int)
    requires x.stop.Some? ==> StopOk(x.stop.value, clock)
    ensures StopAfter(x, p, clock).Some? && StopOk(StopAfter(x, p, clock).value, clock)
    ensures StopAfter(x, p, clock).value.d.requested == StopRequested(x)
  {
    hide Shortened;
    if x.stop.Some? { ShortenedFacts(x.stop.value.d, p, clock); }
  }

  lemma StopSetOk(x: Exec, st: StopReq, clock: int)
    requires ExecOk(x, true, clock) && StopOk(st, clock) && st.d.requested == StopRequested(x)
    ensures ExecOk(x.(stop := Some(st)), true, clock)
  {
    hide StopOk;
  }

  lemma RequestKeeps(s: Life, e: nat, p: Policy)
    requires Inv(s) && e in s.execs
    ensures Inv(DoRequestStop(s, e, p))
  {
    var x, t := s.execs[e], DoRequestStop(s, e, p);
    assert ExecOk(x, s.current == Some(e), s.clock);
    if t != s {
      assert s.current == Some(e);
      StopAfterOk(x, p, s.clock);
      var req := StopAfter(x, p, s.clock);
      var y := x.(stop := req);
      hide ExecOk, StopOk, Inv, NewStop, Shortened, EnterRequest;
      StopSetOk(x, req.value, s.clock);
      if req.value.d.requestAt <= s.clock { EnterOk(y, s.clock); }
      PutKeeps(s, e, if req.value.d.requestAt <= s.clock then EnterRequest(y) else y);
    }
  }

  lemma FinishedOk(x: Exec, clock: int, kind: StopKind)
    requires ExecOk(x, true, clock) && !x.abortChecked
    ensures var y := x.(phase := Finished, operationDone := false, owner := Nobody, doneClosed := x.doneClosed + 1);
      ExecOk(y, false, clock) && ExecOk(Resolve(y, kind), false, clock)
  {
    hide StopOk;
    var y := x.(phase := Finished, operationDone := false, owner := Nobody, doneClosed := x.doneClosed + 1);
    ResolveOk(y, false, clock, kind);
  }

  lemma FinishKeeps(s: Life, e: nat, failed: bool)
    requires Inv(s) && Holds(s, e, {Driver, Aborter, Terminator, Closer})
    ensures Inv(DoFinish(s, e, failed))
  {
    var x := s.execs[e];
    assert ExecOk(x, s.current == Some(e), s.clock);
    var kind := if x.beforeStart || x.aborted || (x.delivered && (failed || x.terminalCause)) then StopAborted else StopFinished;
    FinishedOk(x, s.clock, kind);
    hide ExecOk, Resolve;
  }

  lemma TerminateKeeps(s: Life, cause: nat)
    requires Inv(s)
    ensures Inv(DoTerminate(s, cause))
  {
    hide Put;
    var t := SetTerminal(s, cause);
    TerminalKeeps(s, cause);
    if s.current.Some? {
      var e := s.current.value;
      assert ExecOk(s.execs[e], true, s.clock);
      var x := s.execs[e].(terminalCause := true);
      PutKeeps(t, e, if x.phase == Paused then x.(phase := Aborting, operationDone := true, owner := Terminator) else x);
    }
  }

  lemma ForceKeeps(s: Life, e: nat, cause: nat)
    requires Inv(s) && e in s.execs
    ensures Inv(DoForce(s, e, cause)) && Inv(DoForceResolve(s, e))
  {
    hide Put;
    var x := s.execs[e];
    assert ExecOk(x, s.current == Some(e), s.clock);
    ResolveOk(x, s.current == Some(e), s.clock, StopFinished);
    ResolveOk(x, s.current == Some(e), s.clock, StopKilled);
    PutKeeps(s, e, Resolve(x, StopFinished));
    PutKeeps(s, e, Resolve(x, StopKilled));
    TerminalKeeps(s, cause);
    if x.stop.Some? {
      PutKeeps(SetTerminal(s, cause), e, x.(terminalCause := true, stop := Some(x.stop.value.(forceClaimed := true, kind := StopKilled, checkedAtClaim := x.abortChecked))));
    }
  }

  lemma TimerKeeps(s: Life, e: nat)
    requires Inv(s) && e in s.execs
    ensures Inv(DoStopTimer(s, e))
  {
    hide Put;
    var x := s.execs[e];
    assert ExecOk(x, s.current == Some(e), s.clock);
    if DoStopTimer(s, e) != s {
      EnterOk(x, s.clock);
      PutKeeps(s, e, EnterRequest(x));
    }
  }

  lemma ReserveKeeps(s: Life)
    requires Inv(s)
    ensures Inv(DoReserve(s))
  {
  }

  lemma PauseKeeps(s: Life, e: nat, t: Token)
    requires Inv(s)
    ensures Holds(s, e, {Driver}) ==> Inv(DoPublish(s, e))
    ensures Inv(DoClaim(s, t))
  {
    hide Put;
    if Holds(s, e, {Driver}) {
      var x := s.execs[e];
      assert ExecOk(x, s.current == Some(e), s.clock);
      if Usable(s, e) && !StopRequested(x) {
        PutKeeps(s, e, x.(sequence := x.sequence + 1, phase := Paused, operationDone := false, owner := Nobody));
      }
    }
    if TokenValid(s, t) {
      var x := s.execs[t.exec];
      assert ExecOk(x, true, s.clock);
      PutKeeps(s, t.exec, x.(phase := Executing, operationDone := true, owner := Driver, claimed := x.claimed + {t.sequence}));
    }
  }

  lemma ControlKeeps(s: Life, allowPaused: bool, token: Option<Token>)
    requires Inv(s)
    ensures Inv(DoReserveControl(s, allowPaused, token))
    ensures Inv(DoCloseTake(s))
  {
    hide Put;
    if s.current.Some? {
      var e := s.current.value;
      var x := s.execs[e];
      assert ExecOk(x, true, s.clock);
      if x.phase == Paused {
        PutKeeps(s, e, x.(phase := Control, operationDone := true, owner := Controller));
        PutKeeps(s, e, x.(phase := Control, operationDone := true, owner := Closer));
      }
    }
  }

  lemma ReleaseControlKeeps(s: Life, exec: Option<nat>)
    requires Inv(s)
    ensures Inv(DoReleaseControl(s, exec))
  {
    hide Put;
    if exec.Some? && Holds(s, exec.value, {Controller}) {
      var e := exec.value;
      var x := s.execs[e];
      assert ExecOk(x, s.current == Some(e), s.clock);
      PutKeeps(s, e, x.(phase := Aborting, owner := Terminator));
      PutKeeps(s, e, x.(phase := Aborting, owner := Aborter));
      if x.stop.None? { PutKeeps(s, e, x.(phase := Paused, operationDone := false, owner := Nobody)); }
    }
  }

  /** Steps that only move an execution on, or mark it, while its owner holds it. */
  lemma OwnerStepKeeps(s: Life, step: Step)
    requires Inv(s)
    requires step.BeginCallback? || step.EndCallback? || step.BeforeResume? || step.Deliver?
          || step.AbortStart? || step.AbortReturn? || step.AbortCheck?
    ensures Inv(Take(s, step))
  {
    hide Put, ExecOk, Usable, Resolve;
    if Holds(s, step.e, {Driver, Aborter}) {
      OwnerMarks(s, step.e);
      var x := s.execs[step.e];
      match step
      case BeginCallback(e) => PutKeeps(s, e, x.(phase := Callback));
      case EndCallback(e) => PutKeeps(s, e, x.(phase := Executing));
      case BeforeResume(e) => PutKeeps(s, e, x.(phase := Executing));
      case Deliver(e) => PutKeeps(s, e, x.(delivered := true));
      case AbortStart(e) =>
        if x.stop.Some? { PutKeeps(s, e, x.(phase := Aborting, wire := OnWire(x.stop.value.d.killAt))); }
      case AbortReturn(e) => PutKeeps(s, e, x.(wire := InTime));
      case AbortCheck(e) =>
        if x.phase == Aborting && x.stop.Some? { PutKeeps(s, e, x.(abortChecked := true, wire := OffWire)); }
    }
  }

  lemma AnswerKeeps(s: Life, e: nat)
    requires Inv(s)
    ensures Inv(Take(s, AbortAnswered(e))) && Inv(Take(s, AbortFailed(e)))
  {
    hide Put, ExecOk, ResolveByAbort;
    if Checked(s, e) {
      AnsweredMarks(s, e);
      var x := s.execs[e];
      PutKeeps(s, e, x.(aborted := true, abortChecked := false));
      PutKeeps(s, e, ResolveByAbort(x));
    }
  }

  lemma OwnerMarks(s: Life, e: nat)
    requires Inv(s) && Holds(s, e, {Driver, Aborter})
    ensures var x, cur := s.execs[e], s.current == Some(e);
      && ExecOk(x.(phase := Callback), cur, s.clock) && ExecOk(x.(phase := Executing), cur, s.clock)
      && ExecOk(x.(delivered := true), cur, s.clock) && ExecOk(x.(wire := InTime), cur, s.clock)
      && (x.stop.Some? ==> ExecOk(x.(phase := Aborting, wire := OnWire(x.stop.value.d.killAt)), cur, s.clock))
      && (x.phase == Aborting && x.stop.Some? ==> ExecOk(x.(abortChecked := true, wire := OffWire), cur, s.clock))
  {
    var x := s.execs[e];
    assert ExecOk(x, s.current == Some(e), s.clock);
  }

  lemma AnsweredMarks(s: Life, e: nat)
    requires Inv(s) && Checked(s, e)
    ensures var x, cur := s.execs[e], s.current == Some(e);
      ExecOk(x.(aborted := true, abortChecked := false), cur, s.clock) && ExecOk(ResolveByAbort(x), cur, s.clock)
  {
    var x := s.execs[e];
    assert ExecOk(x, s.current == Some(e), s.clock);
  }

  lemma TakeKeeps(s: Life, step: Step)
    requires Inv(s)
    ensures Inv(Take(s, step))
  {
    match step
    case Tick(d) => ClockKeeps(s, d);
    case Reserve => ReserveKeeps(s);
    case Begin(e, send, ended, p, gap) =>
      hide Inv, DoBegin;
      if Holds(s, e, {Driver}) {
        BeginKeeps(s, e, send, ended, p, gap);
      }
    case Publish(e) =>
      hide Inv, DoPublish, DoClaim;
      PauseKeeps(s, e, Token(0, 0, true));
    case Claim(t) =>
      hide Inv, DoPublish, DoClaim;
      PauseKeeps(s, 0, t);
    case ReserveControl(allowPaused, token) =>
      hide Inv, DoReserveControl;
      ControlKeeps(s, allowPaused, token);
    case ReleaseControl(exec) =>
      hide Inv, DoReleaseControl;
      ReleaseControlKeeps(s, exec);
    case CloseTake =>
      hide Inv, DoCloseTake;
      ControlKeeps(s, false, None);
    case Finish(e, failed) =>
      hide Inv, DoFinish;
      if Holds(s, e, {Driver, Aborter, Terminator, Closer}) {
        FinishKeeps(s, e, failed);
      }
    case Terminate(cause) =>
      hide Inv, DoTerminate;
      TerminateKeeps(s, cause);
    case RequestStop(e, p) =>
      hide Inv, DoRequestStop;
      if e in s.execs {
        RequestKeeps(s, e, p);
      }
    case StopTimer(e) =>
      hide Inv, DoStopTimer;
      if e in s.execs {
        TimerKeeps(s, e);
      }
    case Force(e, cause) =>
      hide Inv, DoForce;
      if e in s.execs {
        ForceKeeps(s, e, cause);
      }
    case ForceResolve(e) =>
      hide Inv, DoForceResolve;
      if e in s.execs {
        ForceKeeps(s, e, 0);
      }
    case CloseAttempt =>
    case CloseRelease =>
    case CloseSettle =>
    case AbortAnswered(e) =>
      hide Inv, Put;
      AnswerKeeps(s, e);
    case AbortFailed(e) =>
      hide Inv, Put;
      AnswerKeeps(s, e);
    case _ =>
      hide Inv;
      OwnerStepKeeps(s, step);
  }

  lemma {:induction false} RunKeeps(s: Life, steps: seq<Step>)
    requires Inv(s)
    ensures Inv(Run(s, steps))
    decreases |steps|
  {
    hide Inv, Take;
    if steps != [] {
      TakeKeeps(s, steps[0]);
      RunKeeps(Take(s, steps[0]), steps[1..]);
    }
  }

  // ----- main results: ownership -----

  /** Who owns the session, in every interleaving. */
  lemma Ownership(now: int, steps: seq<Step>)
    ensures var s := Run(Init(now), steps);
      && (s.terminal.Some? <==> s.doneClosed == 1) && s.doneClosed <= 1
      && (s.current.Some? ==> s.current.value in s.execs && s.control == Nobody)
      && (s.current.Some? ==> var x := s.execs[s.current.value]; x.phase != Finished && (x.operationDone <==> x.phase != Paused))
      && (forall e | e in s.execs :: s.execs[e].doneClosed == if s.execs[e].phase == Finished then 1 else 0)
      && (forall e | e in s.execs && s.current != Some(e) :: s.execs[e].phase == Finished)
  {
    hide Take;
    RunKeeps(Init(now), steps);
    var s := Run(Init(now), steps);
    assert forall e | e in s.execs :: ExecOk(s.execs[e], s.current == Some(e), s.clock);
  }

  // ----- what never goes back -----

  ghost predicate StopEvolves(a: StopReq, b: StopReq) {
    && b.d.requestAt <= a.d.requestAt && b.d.killAt <= a.d.killAt
    && (a.d.requested ==> b.d.requested && b.d.requestAt == a.d.requestAt)
    && a.resolvedClosed <= b.resolvedClosed
    && (a.resolvedClosed == 1 ==> b.kind == a.kind)
    && a.bounds <= b.bounds
    && a.late == b.late && a.catchable == b.catchable
  }

  /** An execution's deadlines shrink, its stop resolves once, its claims stay, and once finished it does not change phase. */
  ghost predicate Evolves(x: Exec, y: Exec) {
    && x.sequence <= y.sequence && x.claimed <= y.claimed
    && (x.phase == Finished ==> y.phase == Finished)
    && (x.stop.Some? ==> y.stop.Some? && StopEvolves(x.stop.value, y.stop.value))
  }

  ghost predicate LifeEvolves(s: Life, t: Life) {
    && s.clock <= t.clock
    && (s.terminal.Some? ==> t.terminal == s.terminal)
    && (forall e | e in s.execs :: e in t.execs && Evolves(s.execs[e], t.execs[e]))
  }

  lemma PutEvolves(s: Life, t: Life, e: nat)
    requires e in s.execs && e in t.execs && Evolves(s.execs[e], t.execs[e])
    requires t.execs == s.execs[e := t.execs[e]] && t.clock >= s.clock && (s.terminal.Some? ==> t.terminal == s.terminal)
    ensures LifeEvolves(s, t)
  {
  }

  lemma SameEvolves(s: Life, t: Life)
    requires t.execs == s.execs && t.clock >= s.clock && (s.terminal.Some? ==> t.terminal == s.terminal)
    ensures LifeEvolves(s, t)
  {
  }

  /** The stop is untouched. */
  lemma MarkEvolves(s: Life, t: Life, e: nat)
    requires e in s.execs && e in t.execs && t.execs[e].stop == s.execs[e].stop
    requires s.execs[e].sequence <= t.execs[e].sequence && s.execs[e].claimed <= t.execs[e].claimed
    requires s.execs[e].phase == Finished ==> t.execs[e].phase == Finished
    requires t.execs == s.execs[e := t.execs[e]] && t.clock >= s.clock && (s.terminal.Some? ==> t.terminal == s.terminal)
    ensures LifeEvolves(s, t)
  {
    PutEvolves(s, t, e);
  }

  lemma ResolveEvolves(x: Exec, kind: StopKind)
    requires x.stop.Some? ==> x.stop.value.resolvedClosed <= 1
    ensures Evolves(x, Resolve(x, kind))
  {
  }

  lemma ExecAt(s: Life, e: nat)
    requires Inv(s) && e in s.execs
    ensures ExecOk(s.execs[e], s.current == Some(e), s.clock)
  {
  }

  lemma RequestEvolves(s: Life, e: nat, p: Policy)
    requires Inv(s) && e in s.execs
    ensures LifeEvolves(s, DoRequestStop(s, e, p))
  {
    ExecAt(s, e);
    hide Inv;
    var t := DoRequestStop(s, e, p);
    if t == s {
      SameEvolves(s, t);
    } else {
      if s.execs[e].stop.Some? {
        ShortenedFacts(s.execs[e].stop.value.d, p, s.clock);
      }
      PutEvolves(s, t, e);
    }
  }

  lemma TimerEvolves(s: Life, e: nat)
    requires Inv(s) && e in s.execs
    ensures LifeEvolves(s, DoStopTimer(s, e))
  {
    ExecAt(s, e);
    hide Inv;
    PutEvolves(s, s, e);
    if DoStopTimer(s, e) != s {
      PutEvolves(s, DoStopTimer(s, e), e);
    }
  }

  lemma FinishEvolves(s: Life, e: nat, failed: bool)
    requires Inv(s) && e in s.execs
    ensures LifeEvolves(s, DoFinish(s, e, failed))
  {
    ExecAt(s, e);
    hide Inv;
    PutEvolves(s, DoFinish(s, e, failed), e);
  }

  lemma BeginEvolves(s: Life, e: nat, send: bool, ended: bool, p: Policy, gap: nat)
    requires Inv(s) && Holds(s, e, {Driver})
    ensures LifeEvolves(s, DoBegin(s, e, send, ended, p, gap))
  {
    ExecAt(s, e);
    hide Inv;
    PutEvolves(s, DoBegin(s, e, send, ended, p, gap), e);
  }

  lemma ForceEvolves(s: Life, e: nat, cause: nat)
    requires Inv(s) && e in s.execs
    ensures LifeEvolves(s, DoForce(s, e, cause))
  {
    ExecAt(s, e);
    hide Inv;
    ResolveEvolves(s.execs[e], StopFinished);
    PutEvolves(s, DoForce(s, e, cause), e);
  }

  lemma ForceResolveEvolves(s: Life, e: nat)
    requires Inv(s) && e in s.execs
    ensures LifeEvolves(s, DoForceResolve(s, e))
  {
    ExecAt(s, e);
    hide Inv;
    ResolveEvolves(s.execs[e], StopKilled);
    PutEvolves(s, DoForceResolve(s, e), e);
  }

  lemma TerminateEvolves(s: Life, cause: nat)
    requires Inv(s)
    ensures LifeEvolves(s, DoTerminate(s, cause))
  {
    if s.current.Some? {
      ExecAt(s, s.current.value);
      hide Inv;
      MarkEvolves(s, DoTerminate(s, cause), s.current.value);
    } else {
      SameEvolves(s, DoTerminate(s, cause));
    }
  }

  lemma PauseEvolves(s: Life, e: nat, t: Token)
    requires Inv(s)
    ensures Holds(s, e, {Driver}) ==> LifeEvolves(s, DoPublish(s, e))
    ensures LifeEvolves(s, DoClaim(s, t))
  {
    if Holds(s, e, {Driver}) {
      ExecAt(s, e);
      MarkEvolves(s, DoPublish(s, e), e);
    }
    if TokenValid(s, t) {
      MarkEvolves(s, DoClaim(s, t), t.exec);
    } else {
      SameEvolves(s, s);
    }
  }

  lemma ReleaseControlEvolves(s: Life, exec: Option<nat>)
    requires Inv(s)
    ensures LifeEvolves(s, DoReleaseControl(s, exec))
  {
    SameEvolves(s, s);
    SameEvolves(s, s.(control := Nobody));
    if exec.Some? && Holds(s, exec.value, {Controller}) {
      ExecAt(s, exec.value);
      MarkEvolves(s, DoReleaseControl(s, exec), exec.value);
    }
  }

  lemma ControlEvolves(s: Life, allowPaused: bool, token: Option<Token>)
    requires Inv(s)
    ensures LifeEvolves(s, DoReserveControl(s, allowPaused, token))
    ensures LifeEvolves(s, DoCloseTake(s))
  {
    SameEvolves(s, s);
    SameEvolves(s, s.(control := Controller));
    SameEvolves(s, s.(control := Closer));
    if s.current.Some? {
      var e := s.current.value;
      ExecAt(s, e);
      hide LifeEvolves;
      if s.execs[e].phase == Paused {
        MarkEvolves(s, Put(s, e, s.execs[e].(phase := Control, operationDone := true, owner := Controller)), e);
        MarkEvolves(s, Put(s, e, s.execs[e].(phase := Control, operationDone := true, owner := Closer)), e);
      }
    }
  }

  lemma OwnerStepEvolves(s: Life, step: Step)
    requires Inv(s)
    requires step.BeginCallback? || step.EndCallback? || step.BeforeResume? || step.Deliver?
          || step.AbortStart? || step.AbortReturn? || step.AbortCheck? || step.AbortAnswered? || step.AbortFailed?
    ensures LifeEvolves(s, Take(s, step))
  {
    if Take(s, step) == s {
      SameEvolves(s, s);
    } else {
      ExecAt(s, step.e);
      hide Inv, LifeEvolves, Usable;
      if step.AbortFailed? {
        PutEvolves(s, Take(s, step), step.e);
      } else {
        MarkEvolves(s, Take(s, step), step.e);
      }
    }
  }

  lemma ReserveEvolves(s: Life)
    requires Inv(s)
    ensures LifeEvolves(s, DoReserve(s))
  {
  }

  /** Every step. */
  lemma StepEvolves(s: Life, step: Step)
    requires Inv(s)
    ensures LifeEvolves(s, Take(s, step))
  {
    hide Inv, LifeEvolves, Put, Usable, SetTerminal, DoReserve, DoBegin, DoPublish, DoClaim, DoReserveControl, DoReleaseControl;
    hide DoFinish, DoTerminate, DoRequestStop, DoStopTimer, DoForce, DoForceResolve, DoCloseTake;
    SameEvolves(s, s);
    match step
    case Tick(d) => SameEvolves(s, Take(s, step));
    case Reserve => ReserveEvolves(s);
    case Begin(e, send, ended, p, gap) =>
      if Holds(s, e, {Driver}) {
        BeginEvolves(s, e, send, ended, p, gap);
      }
    case Publish(e) => PauseEvolves(s, e, Token(0, 0, true));
    case Claim(t) => PauseEvolves(s, 0, t);
    case ReserveControl(allowPaused, token) => ControlEvolves(s, allowPaused, token);
    case ReleaseControl(exec) => ReleaseControlEvolves(s, exec);
    case CloseTake => ControlEvolves(s, false, None);
    case Finish(e, failed) =>
      if Holds(s, e, {Driver, Aborter, Terminator, Closer}) {
        FinishEvolves(s, e, failed);
      }
    case Terminate(cause) => TerminateEvolves(s, cause);
    case RequestStop(e, p) =>
      if e in s.execs {
        RequestEvolves(s, e, p);
      }
    case StopTimer(e) =>
      if e in s.execs {
        TimerEvolves(s, e);
      }
    case Force(e, cause) =>
      if e in s.execs {
        ForceEvolves(s, e, cause);
      }
    case ForceResolve(e) =>
      if e in s.execs {
        ForceResolveEvolves(s, e);
      }
    case CloseAttempt => SameEvolves(s, Take(s, step));
    case CloseRelease => SameEvolves(s, Take(s, step));
    case CloseSettle => SameEvolves(s, Take(s, step));
    case _ => OwnerStepEvolves(s, step);
  }

  lemma EvolvesTransitive(s: Life, t: Life, u: Life)
    requires LifeEvolves(s, t) && LifeEvolves(t, u) && Inv(t)
    ensures LifeEvolves(s, u)
  {
    forall e | e in s.execs ensures e in u.execs && Evolves(s.execs[e], u.execs[e]) {
      assert e in t.execs && Evolves(s.execs[e], t.execs[e]) && Evolves(t.execs[e], u.execs[e]);
      assert ExecOk(t.execs[e], t.current == Some(e), t.clock);
    }
  }

  /** Nothing goes back over a whole run. */
  lemma {:induction false} RunEvolves(s: Life, steps: seq<Step>)
    requires Inv(s)
    ensures LifeEvolves(s, Run(s, steps))
    decreases |steps|
  {
    hide Inv, LifeEvolves, Take;
    if steps == [] {
      SameEvolves(s, s);
    } else {
      var t := Take(s, steps[0]);
      TakeKeeps(s, steps[0]);
      StepEvolves(s, steps[0]);
      RunEvolves(t, steps[1..]);
      EvolvesTransitive(s, t, Run(t, steps[1..]));
    }
  }

  // ----- main results: stops -----

  /**
    In every run, a stop kills no later than any of its callers asked for,
    resolves at most once, and has its deadlines in order exactly when they
    were not made late (see Stop.DueInOrder for when that is).
  */
  lemma StopDeadlines(now: int, steps: seq<Step>, e: nat)
    requires e in Run(Init(now), steps).execs && Run(Init(now), steps).execs[e].stop.Some?
    ensures var st := Run(Init(now), steps).execs[e].stop.value;
      && (forall b | b in st.bounds :: st.d.killAt <= b)
      && st.resolvedClosed <= 1
      && (st.d.requestAt <= st.d.killAt <==> !st.late)
  {
    hide Take;
    RunKeeps(Init(now), steps);
    ExecAt(Run(Init(now), steps), e);
  }

  /** Later in the same run the deadlines are no later, a requested one is frozen, and a resolved kind is final. */
  lemma StopOnlyShrinks(now: int, before: seq<Step>, after: seq<Step>, e: nat)
    requires e in Run(Init(now), before).execs && Run(Init(now), before).execs[e].stop.Some?
    ensures var s := Run(Init(now), before);
      var t := Run(s, after);
      e in t.execs && t.execs[e].stop.Some? && StopEvolves(s.execs[e].stop.value, t.execs[e].stop.value)
  {
    hide Take, Run;
    RunKeeps(Init(now), before);
    RunEvolves(Run(Init(now), before), after);
    var s := Run(Init(now), before);
    assert Evolves(s.execs[e], Run(s, after).execs[e]);
  }

  /** Each caller of requestStop leaves its own bound behind, unless there is nothing left to stop. */
  lemma RequestBounds(s: Life, e: nat, p: Policy)
    requires Inv(s) && e in s.execs
    ensures var x, t := s.execs[e], Take(s, RequestStop(e, p));
      if x.phase == Finished || (if x.stop.Some? then x.stop.value.resolvedClosed == 1 else x.terminalCause) then t == s
      else t.execs[e].stop.Some? && OwnBound(p, s.clock) in t.execs[e].stop.value.bounds
  {
    ExecAt(s, e);
  }

  // ----- main results: kills -----

  /** The kill has been claimed, no abort is about to report otherwise, and it has not been reported as anything else. */
  ghost predicate Killing(s: Life, e: nat) {
    && e in s.execs && s.execs[e].stop.Some? && s.terminal.Some?
    && !s.execs[e].abortChecked
    && s.execs[e].stop.value.forceClaimed && s.execs[e].stop.value.kind == StopKilled
  }

  lemma KillingStays(s: Life, step: Step, e: nat)
    requires Inv(s) && Killing(s, e)
    ensures Killing(Take(s, step), e)
  {
    hide DoBegin, DoFinish, DoRequestStop, DoStopTimer, DoTerminate, DoForce, DoReserve, DoPublish, DoClaim, DoReserveControl, DoReleaseControl;
    hide DoCloseTake, DoForceResolve, Killing, Put, Inv, Resolve, Usable;
    match step
    case Begin(d, send, ended, p, gap) => KillingBegin(s, e, d, send, ended, p, gap);
    case Finish(d, failed) => KillingFinish(s, e, d, failed);
    case RequestStop(d, p) => KillingRequest(s, e, d, p);
    case StopTimer(d) => KillingTimer(s, e, d);
    case Force(d, cause) => KillingForce(s, e, d, cause);
    case Terminate(cause) => KillingTerminate(s, e, cause);
    case Reserve => KillingReserve(s, e);
    case Publish(d) => KillingPause(s, e, d, Token(0, 0, true));
    case Claim(t) => KillingPause(s, e, 0, t);
    case ReserveControl(allowPaused, token) => KillingControl(s, e, allowPaused, token, None);
    case ReleaseControl(exec) => KillingControl(s, e, false, None, exec);
    case CloseTake => KillingControl(s, e, false, None, None);
    case _ => KillingOther(s, e, step);
  }

  lemma KillingOther(s: Life, e: nat, step: Step)
    requires Killing(s, e)
    requires step.Tick? || step.BeginCallback? || step.EndCallback? || step.BeforeResume? || step.Deliver? || step.ForceResolve?
          || step.AbortStart? || step.AbortReturn? || step.AbortCheck? || step.AbortAnswered? || step.AbortFailed?
          || step.CloseAttempt? || step.CloseRelease? || step.CloseSettle?
    ensures Killing(Take(s, step), e)
  {
  }

  lemma KillingBegin(s: Life, e: nat, d: nat, send: bool, ended: bool, p: Policy, gap: nat)
    requires Killing(s, e)
    ensures d in s.execs ==> Killing(DoBegin(s, d, send, ended, p, gap), e)
  {
  }

  lemma KillingFinish(s: Life, e: nat, d: nat, failed: bool)
    requires Killing(s, e)
    ensures d in s.execs ==> Killing(DoFinish(s, d, failed), e)
  {
  }

  lemma KillingRequest(s: Life, e: nat, d: nat, p: Policy)
    requires Killing(s, e)
    ensures d in s.execs ==> Killing(DoRequestStop(s, d, p), e)
  {
    hide Shortened;
  }

  lemma KillingTimer(s: Life, e: nat, d: nat)
    requires Killing(s, e)
    ensures d in s.execs ==> Killing(DoStopTimer(s, d), e)
  {
  }

  lemma KillingForce(s: Life, e: nat, d: nat, cause: nat)
    requires Killing(s, e)
    ensures d in s.execs ==> Killing(DoForce(s, d, cause), e)
  {
  }

  lemma KillingTerminate(s: Life, e: nat, cause: nat)
    requires Killing(s, e)
    ensures Killing(DoTerminate(s, cause), e)
  {
  }

  lemma KillingReserve(s: Life, e: nat)
    requires Inv(s) && Killing(s, e)
    ensures Killing(DoReserve(s), e)
  {
  }

  lemma KillingPause(s: Life, e: nat, d: nat, t: Token)
    requires Killing(s, e)
    ensures d in s.execs ==> Killing(DoPublish(s, d), e)
    ensures Killing(DoClaim(s, t), e)
  {
  }

  lemma KillingControl(s: Life, e: nat, allowPaused: bool, token: Option<Token>, exec: Option<nat>)
    requires Killing(s, e)
    ensures Killing(DoReserveControl(s, allowPaused, token), e)
    ensures Killing(DoReleaseControl(s, exec), e)
    ensures Killing(DoCloseTake(s), e)
  {
  }

  lemma {:induction false} KillingRun(s: Life, steps: seq<Step>, e: nat)
    requires Inv(s) && Killing(s, e)
    ensures Killing(Run(s, steps), e)
    decreases |steps|
  {
    hide Inv, Take, Killing;
    if steps != [] {
      TakeKeeps(s, steps[0]);
      KillingStays(s, steps[0], e);
      KillingRun(Take(s, steps[0]), steps[1..], e);
    }
  }

  /** What a kill that was claimed has come to, for the history of one execution. */
  ghost predicate KillOk(x: Exec, ended: bool) {
    x.stop.Some? ==>
      var st := x.stop.value;
      && (st.byAbort ==> st.resolvedClosed > 0)
      && (st.forceClaimed ==>
            && ended && (st.kind == StopKilled <==> !st.byAbort)
            && (st.byAbort || x.abortChecked ==> st.checkedAtClaim))
  }

  ghost predicate KillInv(s: Life) {
    forall e | e in s.execs :: KillOk(s.execs[e], s.terminal.Some?)
  }

  lemma PutKill(s: Life, t: Life, e: nat)
    requires KillInv(s) && e in t.execs && t.execs == s.execs[e := t.execs[e]]
    requires (s.terminal.Some? ==> t.terminal.Some?) && KillOk(t.execs[e], t.terminal.Some?)
    ensures KillInv(t)
  {
    forall d | d in t.execs ensures KillOk(t.execs[d], t.terminal.Some?) {
      if d != e { assert KillOk(s.execs[d], s.terminal.Some?); }
    }
  }

  /** A step that only moves the execution on leaves its kill alone. */
  lemma MoveKill(s: Life, t: Life, e: nat)
    requires KillInv(s) && e in s.execs && e in t.execs && t.execs == s.execs[e := t.execs[e]]
    requires (s.terminal.Some? ==> t.terminal.Some?) && t.execs[e].stop == s.execs[e].stop
    requires t.execs[e].abortChecked ==> s.execs[e].abortChecked || t.terminal.None?
    ensures KillInv(t)
  {
    assert KillOk(s.execs[e], s.terminal.Some?);
    PutKill(s, t, e);
  }

  lemma SameKill(s: Life, t: Life)
    requires KillInv(s) && t.execs == s.execs && (s.terminal.Some? ==> t.terminal.Some?)
    ensures KillInv(t)
  {
    forall d | d in t.execs ensures KillOk(t.execs[d], t.terminal.Some?) { assert KillOk(s.execs[d], s.terminal.Some?); }
  }

  lemma ForceKill(s: Life, e: nat, cause: nat)
    requires KillInv(s) && e in s.execs
    ensures KillInv(DoForce(s, e, cause))
  {
    hide KillInv;
    KillAt(s, e);
    PutKill(s, DoForce(s, e, cause), e);
  }

  lemma TimerKill(s: Life, e: nat)
    requires KillInv(s) && e in s.execs
    ensures KillInv(DoStopTimer(s, e)) && KillInv(DoForceResolve(s, e))
  {
    hide KillInv;
    KillAt(s, e);
    PutKill(s, DoStopTimer(s, e), e);
    PutKill(s, DoForceResolve(s, e), e);
  }

  lemma RequestKill(s: Life, e: nat, p: Policy)
    requires KillInv(s) && e in s.execs
    ensures KillInv(DoRequestStop(s, e, p))
  {
    hide KillInv, Shortened;
    KillAt(s, e);
    PutKill(s, DoRequestStop(s, e, p), e);
  }

  lemma KillAt(s: Life, e: nat)
    requires KillInv(s) && e in s.execs
    ensures KillOk(s.execs[e], s.terminal.Some?)
  {
  }

  lemma FinishKill(s: Life, e: nat, failed: bool)
    requires KillInv(s) && e in s.execs
    ensures KillInv(DoFinish(s, e, failed))
  {
    hide KillInv;
    KillAt(s, e);
    PutKill(s, DoFinish(s, e, failed), e);
  }

  lemma BeginKill(s: Life, e: nat, send: bool, ended: bool, p: Policy, gap: nat)
    requires KillInv(s) && e in s.execs
    ensures KillInv(DoBegin(s, e, send, ended, p, gap))
  {
    hide KillInv;
    KillAt(s, e);
    PutKill(s, DoBegin(s, e, send, ended, p, gap), e);
  }

  lemma TerminateKill(s: Life, cause: nat)
    requires KillInv(s)
    ensures KillInv(DoTerminate(s, cause))
  {
    hide KillInv;
    SameKill(s, SetTerminal(s, cause));
    if s.current.Some? && s.current.value in s.execs {
      MoveKill(s, DoTerminate(s, cause), s.current.value);
    }
  }

  lemma PauseKill(s: Life, e: nat, t: Token)
    requires KillInv(s)
    ensures e in s.execs ==> KillInv(DoPublish(s, e))
    ensures KillInv(DoClaim(s, t))
  {
    hide KillInv, TokenValid, Usable;
    if e in s.execs { MoveKill(s, DoPublish(s, e), e); }
    if t.exec in s.execs { MoveKill(s, DoClaim(s, t), t.exec); } else { ClaimNone(s, t); }
  }

  lemma ControlKill(s: Life, allowPaused: bool, token: Option<Token>)
    requires KillInv(s)
    ensures KillInv(DoReserveControl(s, allowPaused, token)) && KillInv(DoCloseTake(s))
  {
    hide KillInv, TokenValid, Admits;
    SameKill(s, s.(control := Controller));
    SameKill(s, s.(control := Closer));
    if s.current.Some? && s.current.value in s.execs && DoReserveControl(s, allowPaused, token) != s {
      MoveKill(s, DoReserveControl(s, allowPaused, token), s.current.value);
    }
    if s.current.Some? && s.current.value in s.execs && DoCloseTake(s) != s {
      MoveKill(s, DoCloseTake(s), s.current.value);
    }
  }

  lemma ReleaseControlKill(s: Life, exec: Option<nat>)
    requires KillInv(s)
    ensures KillInv(DoReleaseControl(s, exec))
  {
    hide KillInv;
    SameKill(s, s.(control := Nobody));
    if exec.Some? && exec.value in s.execs { MoveKill(s, DoReleaseControl(s, exec), exec.value); }
  }

  lemma ClaimNone(s: Life, t: Token)
    requires t.exec !in s.execs
    ensures DoClaim(s, t) == s
  {
  }

  lemma ReserveKill(s: Life)
    requires Inv(s) && KillInv(s)
    ensures KillInv(DoReserve(s))
  {
    hide KillInv;
    var t := DoReserve(s);
    if t != s { PutKill(s, t, s.nextID + 1); }
  }

  lemma OwnerKill(s: Life, step: Step)
    requires KillInv(s)
    requires step.BeginCallback? || step.EndCallback? || step.BeforeResume? || step.Deliver?
          || step.AbortStart? || step.AbortReturn? || step.AbortCheck? || step.AbortAnswered? || step.AbortFailed?
    ensures KillInv(Take(s, step))
  {
    hide KillInv, Usable;
    if step.e in s.execs {
      KillAt(s, step.e);
      PutKill(s, Take(s, step), step.e);
    }
  }

  lemma StepKill(s: Life, step: Step)
    requires Inv(s) && KillInv(s)
    ensures KillInv(Take(s, step))
  {
    hide Inv, KillInv, Put, Usable, SetTerminal, DoReserve, DoBegin, DoPublish, DoClaim, DoReserveControl, DoReleaseControl;
    hide DoFinish, DoTerminate, DoRequestStop, DoStopTimer, DoForce, DoForceResolve, DoCloseTake;
    match step
    case Reserve => ReserveKill(s);
    case Begin(e, send, ended, p, gap) =>
      if e in s.execs { BeginKill(s, e, send, ended, p, gap); }
    case Publish(e) => PauseKill(s, e, Token(0, 0, true));
    case Claim(t) => PauseKill(s, 0, t);
    case ReserveControl(allowPaused, token) => ControlKill(s, allowPaused, token);
    case ReleaseControl(exec) => ReleaseControlKill(s, exec);
    case CloseTake => ControlKill(s, false, None);
    case Finish(e, failed) =>
      if e in s.execs { FinishKill(s, e, failed); }
    case Terminate(cause) => TerminateKill(s, cause);
    case RequestStop(e, p) =>
      if e in s.execs { RequestKill(s, e, p); }
    case StopTimer(e) =>
      if e in s.execs { TimerKill(s, e); }
    case Force(e, cause) =>
      if e in s.execs { ForceKill(s, e, cause); }
    case ForceResolve(e) =>
      if e in s.execs { TimerKill(s, e); }
    case Tick(_) => SameKill(s, Take(s, step));
    case CloseAttempt => SameKill(s, Take(s, step));
    case CloseRelease => SameKill(s, Take(s, step));
    case CloseSettle => SameKill(s, Take(s, step));
    case _ => OwnerKill(s, step);
  }

  lemma {:induction false} RunKill(s: Life, steps: seq<Step>)
    requires Inv(s) && KillInv(s)
    ensures KillInv(Run(s, steps))
    decreases |steps|
  {
    hide Inv, KillInv, Take;
    if steps != [] {
      TakeKeeps(s, steps[0]);
      StepKill(s, steps[0]);
      RunKill(Take(s, steps[0]), steps[1..]);
    }
  }

  /**
    In every run, a kill that was claimed is reported as a kill if and only if
    no failing abort resolved the stop first, and such an abort had passed its
    check before the claim.
  */
  lemma KillReported(now: int, steps: seq<Step>, e: nat)
    requires var s := Run(Init(now), steps); e in s.execs && s.execs[e].stop.Some? && s.execs[e].stop.value.forceClaimed
    ensures var st := Run(Init(now), steps).execs[e].stop.value;
      (st.kind == StopKilled <==> !st.byAbort) && (st.byAbort ==> st.checkedAtClaim && st.resolvedClosed == 1)
  {
    hide Take, Run, KillInv;
    assert KillInv(Init(now)) by { KillStart(now); }
    RunKill(Init(now), steps);
    RunKeeps(Init(now), steps);
    ExecAt(Run(Init(now), steps), e);
    KillAt(Run(Init(now), steps), e);
  }

  lemma KillStart(now: int)
    ensures KillInv(Init(now))
  {
  }

  /** forceExecution gets as far as claiming the kill. */
  predicate Claims(s: Life, e: nat) {
    && e in s.execs && s.execs[e].stop.Some?
    && s.execs[e].stop.value.resolvedClosed == 0 && !s.execs[e].stop.value.forceClaimed
    && s.current == Some(e) && s.execs[e].phase != Finished && s.terminal.None? && s.execs[e].stop.value.d.killAt <= s.clock
  }

  /**
    A kill can come to be reported as finished in some run after it was
    claimed exactly when an abort had passed its check for the end of the
    session before the claim; otherwise every run reports it as a kill.
  */
  lemma KillMaskedExactly(s: Life, e: nat, cause: nat)
    requires Inv(s) && Claims(s, e)
    ensures var t := Take(s, Force(e, cause));
      (exists steps :: KindAfter(t, steps, e) != StopKilled) <==> s.execs[e].abortChecked
    ensures var t := Take(s, Force(e, cause));
      s.execs[e].abortChecked ==> KindAfter(t, [AbortFailed(e)], e) == StopFinished && KindAfter(t, [ForceResolve(e)], e) == StopKilled
  {
    hide Inv, Run;
    var t := Take(s, Force(e, cause));
    TakeKeeps(s, Force(e, cause));
    ClaimFacts(s, e, cause);
    if s.execs[e].abortChecked {
      AbortMasksKill(t, e);
      RunNothing(Take(t, AbortFailed(e)));
      RunNothing(Take(t, ForceResolve(e)));
      RunCons(t, AbortFailed(e), []);
      RunCons(t, ForceResolve(e), []);
      assert [AbortFailed(e)] + [] == [AbortFailed(e)] && [ForceResolve(e)] + [] == [ForceResolve(e)];
      hide Take;
      assert KindAfter(t, [AbortFailed(e)], e) != StopKilled;
    } else {
      hide Take;
      forall steps ensures KindAfter(t, steps, e) == StopKilled {
        KillingRun(t, steps, e);
      }
    }
  }

  function KindAfter(s: Life, steps: seq<Step>, e: nat): StopKind {
    var t := Run(s, steps);
    if e in t.execs && t.execs[e].stop.Some? then t.execs[e].stop.value.kind else StopPending
  }

  lemma ClaimFacts(s: Life, e: nat, cause: nat)
    requires Claims(s, e)
    ensures var t := Take(s, Force(e, cause));
      && e in t.execs && t.terminal.Some? && t.execs[e].abortChecked == s.execs[e].abortChecked && t.execs[e].stop.Some?
      && t.execs[e].stop.value.forceClaimed && t.execs[e].stop.value.resolvedClosed == 0 && t.execs[e].stop.value.kind == StopKilled
  {
  }

  /** An abort past its check reports a kill that has been claimed, but not yet reported, as finished, and that stands. */
  lemma AbortMasksKill(s: Life, e: nat)
    requires e in s.execs && s.execs[e].stop.Some? && s.terminal.Some?
    requires s.execs[e].stop.value.forceClaimed && s.execs[e].stop.value.resolvedClosed == 0 && s.execs[e].stop.value.kind == StopKilled
    ensures Take(s, AbortFailed(e)).execs[e].stop.value.kind == if s.execs[e].abortChecked then StopFinished else StopKilled
    ensures Take(s, ForceResolve(e)).execs[e].stop.value.kind == StopKilled
    ensures s.execs[e].abortChecked ==> Take(Take(s, AbortFailed(e)), ForceResolve(e)) == Take(s, AbortFailed(e))
  {
  }

  /** What the driver has done when its abort came back in time and passed the check. */
  function AbortedInTime(p: Policy): seq<Step> {
    [Reserve, Begin(1, true, false, p, 0), RequestStop(1, p), AbortStart(1)] + [AbortReturn(1), AbortCheck(1)]
  }

  /**
    Such a state is reached: the abort comes back before the kill deadline and
    passes its check, and the kill falls due only then. A failing abort that
    goes on from there has the kill reported as finished.
  */
  lemma KillDuringAbort(now: int)
    ensures var p := Policy(0, 1, false);
      var s := Run(Init(now), AbortedInTime(p));
      var t := Take(s, Tick(1));
      && 1 in s.execs && s.execs[1].abortChecked && s.execs[1].stop.Some? && s.clock < s.execs[1].stop.value.d.killAt
      && Claims(t, 1) && t.execs[1].abortChecked
      && KindAfter(Take(t, Force(1, 0)), [AbortFailed(1)], 1) == StopFinished
  {
    var p := Policy(0, 1, false);
    var s, t := Run(Init(now), AbortedInTime(p)), Take(Run(Init(now), AbortedInTime(p)), Tick(1));
    CheckReached(now, p);
    RunKeeps(Init(now), AbortedInTime(p));
    TakeKeeps(s, Tick(1));
    DueReached(now, p);
    hide Run, Take, AbortedInTime, Inv;
    KillMaskedExactly(t, 1, 0);
  }

  /** The first execution with a stop, its abort at the given stage. */
  function Stopping(now: int, p: Policy, wire: AbortWire, checked: bool): Life {
    var stop := NewStop(p, NewDeadlines(p, now).(requested := true), OwnBound(p, now), false);
    Put(Sending(now), 1, Sending(now).execs[1].(phase := Aborting, stop := stop, wire := wire, abortChecked := checked))
  }

  lemma CheckReached(now: int, p: Policy)
    requires p == Policy(0, 1, false)
    ensures Run(Init(now), AbortedInTime(p)) == Stopping(now, p, OffWire, true)
  {
    SendingReached(now, p);
    AbortingReached(now, p);
    ReturnReached(now, p);
    hide *;
    AbortedSteps(p);
    RunSix(Init(now), Reserve, Begin(1, true, false, p, 0), RequestStop(1, p), AbortStart(1), AbortReturn(1), AbortCheck(1));
  }

  lemma AbortedSteps(p: Policy)
    ensures AbortedInTime(p) == [Reserve, Begin(1, true, false, p, 0), RequestStop(1, p), AbortStart(1), AbortReturn(1), AbortCheck(1)]
  {
  }

  lemma AbortingReached(now: int, p: Policy)
    requires p == Policy(0, 1, false)
    ensures Take(Take(Sending(now), RequestStop(1, p)), AbortStart(1)) == Stopping(now, p, OnWire(now + 1), false)
  {
    var s, x := Sending(now), Sending(now).execs[1];
    var stop := NewStop(p, NewDeadlines(p, now).(requested := true), OwnBound(p, now), false);
    assert Take(s, RequestStop(1, p)) == Put(s, 1, x.(stop := stop));
    assert Take(Put(s, 1, x.(stop := stop)), AbortStart(1)) == Put(s, 1, x.(phase := Aborting, stop := stop, wire := OnWire(now + 1)));
  }

  lemma ReturnReached(now: int, p: Policy)
    ensures Take(Stopping(now, p, OnWire(now + 1), false), AbortReturn(1)) == Stopping(now, p, InTime, false)
    ensures Take(Stopping(now, p, InTime, false), AbortCheck(1)) == Stopping(now, p, OffWire, true)
  {
    var a, b, c := Stopping(now, p, OnWire(now + 1), false), Stopping(now, p, InTime, false), Stopping(now, p, OffWire, true);
    assert a.execs[1].(wire := InTime) == b.execs[1];
    assert Put(a, 1, b.execs[1]) == b;
    assert b.execs[1].(abortChecked := true, wire := OffWire) == c.execs[1];
    assert Put(b, 1, c.execs[1]) == c;
  }

  lemma DueReached(now: int, p: Policy)
    requires p == Policy(0, 1, false)
    ensures var s := Stopping(now, p, OffWire, true);
      var t := Take(s, Tick(1));
      && 1 in s.execs && s.execs[1].abortChecked && s.execs[1].stop.Some? && s.clock < s.execs[1].stop.value.d.killAt
      && Claims(t, 1) && t.execs[1].abortChecked
  {
  }

  /** A first execution whose feed has been sent. */
  function Sending(now: int): Life {
    Life(map[1 := Exec(Executing, Driver, 0, true, 0, None, false, false, false, false, {}, false, OffWire)], 1, Some(1), Nobody, false, None, 0, now)
  }

  lemma SendingReached(now: int, p: Policy)
    ensures Take(Take(Init(now), Reserve), Begin(1, true, false, p, 0)) == Sending(now)
  {
    var x := Exec(Starting, Driver, 0, true, 0, None, false, false, false, false, {}, false, OffWire);
    var s := Life(map[1 := x], 1, Some(1), Nobody, false, None, 0, now);
    assert Take(Init(now), Reserve) == s;
    assert Take(s, Begin(1, true, false, p, 0)) == Put(s, 1, x.(phase := Executing));
  }

  lemma RunSix(s: Life, a: Step, b: Step, c: Step, d: Step, e: Step, f: Step)
    ensures Run(s, [a, b, c, d, e, f]) == Take(Take(Take(Take(Take(Take(s, a), b), c), d), e), f)
  {
    hide Take, Run;
    RunCons(s, a, [b, c, d, e, f]);
    RunCons(Take(s, a), b, [c, d, e, f]);
    RunCons(Take(Take(s, a), b), c, [d, e, f]);
    RunCons(Take(Take(Take(s, a), b), c), d, [e, f]);
    RunCons(Take(Take(Take(Take(s, a), b), c), d), e, [f]);
    RunCons(Take(Take(Take(Take(Take(s, a), b), c), d), e), f, []);
    RunNothing(Take(Take(Take(Take(Take(Take(s, a), b), c), d), e), f));
    assert [a] + [b, c, d, e, f] == [a, b, c, d, e, f] && [b] + [c, d, e, f] == [b, c, d, e, f];
    assert [c] + [d, e, f] == [c, d, e, f] && [d] + [e, f] == [d, e, f] && [e] + [f] == [e, f] && [f] + [] == [f];
  }

  lemma RunCons(s: Life, a: Step, rest: seq<Step>)
    ensures Run(s, [a] + rest) == Run(Take(s, a), rest)
  {
    hide Take;
    assert ([a] + rest)[1..] == rest;
  }

  lemma RunNothing(s: Life)
    ensures Run(s, []) == s
  {
  }

  // ----- main results: snapshots -----

  /**
    A suspension is resumed at most once over the whole chain: after a claim
    of its sequence number, no token for it, copied or not, is accepted again.
  */
  lemma ClaimedOnce(s: Life, t: Token, steps: seq<Step>, copy: Token)
    requires Inv(s) && TokenValid(s, t)
    requires copy.exec == t.exec && copy.sequence == t.sequence
    ensures var later := Run(Take(s, Claim(t)), steps);
      && t.exec in later.execs && Take(later, Claim(copy)) == later
      && (later.execs[t.exec].sequence == t.sequence ==> later.execs[t.exec].phase != Paused)
  {
    var u := Take(s, Claim(t));
    assert t.exec in u.execs && t.sequence in u.execs[t.exec].claimed;
    TakeKeeps(s, Claim(t));
    hide Take, Run;
    RunKeeps(u, steps);
    RunEvolves(u, steps);
    var later := Run(u, steps);
    assert Evolves(u.execs[t.exec], later.execs[t.exec]);
    ExecAt(later, t.exec);
    assert !TokenValid(later, copy);
    ClaimRefused(later, copy);
  }

  lemma ClaimRefused(s: Life, t: Token)
    requires !TokenValid(s, t)
    ensures Take(s, Claim(t)) == s
  {
  }

  /** Only the latest sequence of the current execution, while it is paused, can be claimed; publishing makes it so. */
  lemma PublishedIsClaimable(s: Life, e: nat)
    requires Inv(s) && Holds(s, e, {Driver}) && Usable(s, e) && !StopRequested(s.execs[e]) && Admits(s)
    ensures var t := Take(s, Publish(e));
      && TokenValid(t, Token(e, t.execs[e].sequence, false))
      && (forall q | TokenValid(t, Token(e, q, false)) :: q == s.execs[e].sequence + 1)
  {
  }
}
