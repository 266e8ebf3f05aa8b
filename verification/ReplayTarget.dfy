/**
  The embedded replay target: a phase machine that answers one worker over a line protocol.  It
  announces itself, asks the model once, asks the tool once, and completes; a timer holds back the
  first request.
 */
module ReplayTarget {
  import opened Prelude

  type Session = string

  datatype Phase = AwaitingStart | AwaitingModel | AwaitingTool | Completed

  datatype Boundary = Model | Tool | OtherBoundary

  datatype AttemptOutcome = Succeeded | Failed | OtherOutcome

  /** A line from the worker, with the fields the target looks at. */
  datatype Message =
    | Malformed
    | StartMessage(accepted: bool, session: Session)     // `accepted` covers versions, adapter and boundaries
    | ResultMessage(version: bool, resultSession: Option<Session>, boundary: Boundary, requestSequence: int,
                    kind: Boundary, outcome: AttemptOutcome)
    | StopMessage                                        // stop or abort
    | OtherMessage

  datatype Output = Ready(session: Session) | Request(boundary: Boundary, requestSequence: int) | Finished(requestCount: nat)

  datatype State = State(phase: Phase, session: Option<Session>, timer: bool, ended: bool, exitCode: int, wire: seq<Output>)

  datatype Event = Line(message: Message) | TimerFires

  function Initial(): State { State(AwaitingStart, None, false, false, 0, []) }

  /** A write after the stream was ended never reaches the worker. */
  function Send(t: State, output: Output): State { if t.ended then t else t.(wire := t.wire + [output]) }

  function End(t: State, exitCode: int): State { t.(timer := false, ended := true, exitCode := exitCode) }

  predicate ModelResult(t: State, m: Message) {
    m.ResultMessage? && m.version && m.resultSession == t.session
    && m.boundary == Model && m.requestSequence == 0 && m.kind == Model && m.outcome == Succeeded
  }

  predicate ToolResult(t: State, m: Message) {
    m.ResultMessage? && m.version && m.resultSession == t.session
    && m.boundary == Tool && m.requestSequence == 1 && m.kind == Tool && m.outcome == Failed
  }

  function OnLine(t: State, m: Message, holdIsValid: bool): State {
    match m
    case StartMessage(accepted, session) =>
      if t.phase != AwaitingStart || !accepted then End(t, 1)
      else
        var ready := Send(t.(session := Some(session), phase := AwaitingModel), Ready(session));
        if holdIsValid then ready.(timer := true) else End(ready, 1)
    case ResultMessage(_, _, _, _, _, _) =>
      if t.phase == AwaitingModel then
        if ModelResult(t, m) then Send(t.(phase := AwaitingTool), Request(Tool, 1)) else End(t, 1)
      else if t.phase == AwaitingTool && ToolResult(t, m) then End(Send(t.(phase := Completed), Finished(2)), 0)
      else End(t, 1)
    case StopMessage => End(t, 0)
    case _ => End(t, 1)
  }

  function Next(t: State, e: Event, holdIsValid: bool): State {
    match e
    case Line(m) => OnLine(t, m, holdIsValid)
    case TimerFires => if t.timer then Send(t.(timer := false), Request(Model, 0)) else t
  }

  function Run(events: seq<Event>, holdIsValid: bool): State {
    if events == [] then Initial() else Next(Run(events[..|events| - 1], holdIsValid), events[|events| - 1], holdIsValid)
  }

  class Target {
    const holdIsValid: bool
    var phase: Phase
    var sessionId: Option<Session>
    var pendingTimer: bool
    var ended: bool
    var exitCode: int
    var wire: seq<Output>

    ghost function Value(): State reads this { State(phase, sessionId, pendingTimer, ended, exitCode, wire) }

    constructor (holdIsValid: bool)
      ensures Value() == Initial() && this.holdIsValid == holdIsValid
    {
      this.holdIsValid := holdIsValid;
      phase, sessionId, pendingTimer, ended, exitCode, wire := AwaitingStart, None, false, false, 0, [];
    }

    method Close(code: int)
      modifies this
      ensures Value() == End(old(Value()), code)
    {
      pendingTimer := false;
      exitCode := code;
      ended := true;
    }

    method Write(output: Output)
      modifies this`wire
      ensures Value() == Send(old(Value()), output)
    {
      if !ended { wire := wire + [output]; }
    }

    method Start(m: Message)
      requires m.StartMessage?
      modifies this
      ensures Value() == OnLine(old(Value()), m, holdIsValid)
    {
      if phase != AwaitingStart || !m.accepted { Close(1); return; }
      sessionId := Some(m.session);
      phase := AwaitingModel;
      Write(Ready(m.session));
      if !holdIsValid { Close(1); return; }
      pendingTimer := true;
    }

    method BoundaryResult(m: Message)
      requires m.ResultMessage?
      modifies this
      ensures Value() == OnLine(old(Value()), m, holdIsValid)
    {
      if !m.version || m.resultSession != sessionId { Close(1); return; }
      if phase == AwaitingModel {
        if m.boundary != Model || m.requestSequence != 0 || m.kind != Model || m.outcome != Succeeded { Close(1); return; }
        phase := AwaitingTool;
        Write(Request(Tool, 1));
        return;
      }
      if phase != AwaitingTool || m.boundary != Tool || m.requestSequence != 1 || m.kind != Tool || m.outcome != Failed { Close(1); return; }
      phase := Completed;
      Write(Finished(2));
      Close(0);
    }

    method Receive(m: Message)
      modifies this
      ensures Value() == Next(old(Value()), Line(m), holdIsValid)
    {
      match m {
        case StartMessage(_, _) => Start(m);
        case ResultMessage(_, _, _, _, _, _) => BoundaryResult(m);
        case StopMessage => Close(0);
        case _ => Close(1);
      }
    }

    method Fire()
      modifies this
      ensures Value() == Next(old(Value()), TimerFires, holdIsValid)
    {
      if pendingTimer {
        pendingTimer := false;
        Write(Request(Model, 0));
      }
    }
  }

  // ---------------------------------------------------------------- the script

  function Script(session: Session): seq<Output> { [Ready(session), Request(Model, 0), Request(Tool, 1), Finished(2)] }

  /** The worker has been sent a beginning of the script. */
  predicate OnScript(t: State) { t.wire == [] || (t.session.Some? && t.wire <= Script(t.session.value)) }

  /** While the target is still writing, its phase and its timer say exactly how far it has got. */
  predicate InStep(t: State) {
    t.ended ||
    match t.phase
    case AwaitingStart => t.wire == [] && !t.timer
    case AwaitingModel => t.session.Some? && t.wire == Script(t.session.value)[..if t.timer then 1 else 2]
    case AwaitingTool => t.session.Some? && !t.timer && t.wire == Script(t.session.value)[..3]
    case Completed => false
  }

  /** A model result that is taken while the request it answers is still held back. */
  predicate Early(t: State, e: Event) { !t.ended && t.timer && t.phase == AwaitingModel && e.Line? && ModelResult(t,
      e.message) }

  /** Nothing is sent after the target has ended, and what was sent is never taken back. */
  lemma WireGrows(t: State, e: Event, holdIsValid: bool)
    ensures var u := Next(t, e, holdIsValid);
            t.wire <= u.wire && (t.ended ==> u.ended && u.wire == t.wire)
  {
  }

  lemma {:induction false} WireOnlyGrows(events: seq<Event>, i: nat, holdIsValid: bool)
    requires i <= |events|
    ensures Run(events[..i], holdIsValid).wire <= Run(events, holdIsValid).wire
    ensures Run(events[..i], holdIsValid).ended ==>
              Run(events, holdIsValid).ended && Run(events, holdIsValid).wire == Run(events[..i], holdIsValid).wire
  {
    if i == |events| {
      assert events[..i] == events;
    } else {
      var n := |events| - 1;
      assert events[..n][..i] == events[..i];
      WireOnlyGrows(events[..n], i, holdIsValid);
      WireGrows(Run(events[..n], holdIsValid), events[n], holdIsValid);
    }
  }

  /** A session is announced once, by the first message sent. */
  predicate Announced(t: State) {
    (t.phase == AwaitingStart ==> t.wire == [] && t.session.None?) && (t.wire != [] ==> t.session.Some? && t.wire[0] == Ready(t.session.value))
  }

  lemma StepOnScript(t: State, e: Event, holdIsValid: bool)
    requires InStep(t) && OnScript(t) && Announced(t) && !Early(t, e)
    ensures var u := Next(t, e, holdIsValid); InStep(u) && OnScript(u) && Announced(u)
  {
    if t.session.Some? {
      var script := Script(t.session.value);
      assert script[..1] == [Ready(t.session.value)];
      assert script[..2] == script[..1] + [Request(Model, 0)];
      assert script[..3] == script[..2] + [Request(Tool, 1)];
      assert script == script[..3] + [Finished(2)];
    }
    var u := Next(t, e, holdIsValid);
    if t.phase == AwaitingStart && u.session.Some? { assert Script(u.session.value)[..1] == [Ready(u.session.value)]; }
  }

  predicate NeverEarly(events: seq<Event>, holdIsValid: bool) {
    forall i | 0 <= i < |events| :: !EarlyAt(events, i, holdIsValid)
  }

  predicate EarlyAt(events: seq<Event>, i: nat, holdIsValid: bool)
    requires i < |events|
  {
    Early(Run(events[..i], holdIsValid), events[i])
  }

  lemma {:induction false} NeverEarlyOnScript(events: seq<Event>, holdIsValid: bool)
    requires NeverEarly(events, holdIsValid)
    ensures var t := Run(events, holdIsValid); InStep(t) && OnScript(t) && Announced(t)
  {
    if events != [] {
      var n := |events| - 1;
      NeverEarlyLast(events, holdIsValid);
      NeverEarlyOnScript(events[..n], holdIsValid);
      StepOnScript(Run(events[..n], holdIsValid), events[n], holdIsValid);
    }
  }

  /** The first early result makes the target ask the tool before the model. */
  lemma {:induction false} EarlyLeavesScript(events: seq<Event>, i: nat, holdIsValid: bool)
    requires i < |events| && NeverEarly(events[..i], holdIsValid) && Early(Run(events[..i], holdIsValid), events[i])
    ensures !OnScript(Run(events, holdIsValid))
  {
    NeverEarlyOnScript(events[..i], holdIsValid);
    var t := Run(events[..i], holdIsValid);
    assert events[..i + 1][..i] == events[..i];
    var u := Run(events[..i + 1], holdIsValid);
    assert u.wire == [Ready(t.session.value), Request(Tool, 1)];
    WireOnlyGrows(events, i + 1, holdIsValid);
    var v := Run(events, holdIsValid);
    assert v.wire[1] == Request(Tool, 1);
    assert forall s: Session :: Script(s)[1] == Request(Model, 0);
  }

  /**
    For any hold time and any lines, what the worker has been sent is a beginning of the script if
    and only if no model result was taken while the request it answers was still held back.
   */
  lemma {:induction false} OnScriptExactly(events: seq<Event>, holdIsValid: bool)
    ensures OnScript(Run(events, holdIsValid)) <==> NeverEarly(events, holdIsValid)
  {
    if NeverEarly(events, holdIsValid) {
      NeverEarlyOnScript(events, holdIsValid);
    } else {
      var i := FirstEarly(events, holdIsValid);
      EarlyLeavesScript(events, i, holdIsValid);
    }
  }

  lemma {:induction false} FirstEarly(events: seq<Event>, holdIsValid: bool) returns (i: nat)
    requires !NeverEarly(events, holdIsValid)
    ensures i < |events| && NeverEarly(events[..i], holdIsValid) && Early(Run(events[..i], holdIsValid), events[i])
  {
    var n := |events| - 1;
    NeverEarlyLast(events, holdIsValid);
    if NeverEarly(events[..n], holdIsValid) {
      i := n;
    } else {
      i := FirstEarly(events[..n], holdIsValid);
      assert events[..n][..i] == events[..i];
    }
  }

  // ---------------------------------------------------------------- an answering worker

  /** The worker only answers requests that it has been sent. */
  predicate Answering(events: seq<Event>, holdIsValid: bool) {
    forall i | 0 <= i < |events| && events[i].Line? && events[i].message.ResultMessage? ::
      Request(events[i].message.boundary, events[i].message.requestSequence) in Run(events[..i], holdIsValid).wire
  }

  lemma AnswersAreNotEarly(t: State, e: Event)
    requires InStep(t)
    requires e.Line? && e.message.ResultMessage? ==> Request(e.message.boundary, e.message.requestSequence) in t.wire
    ensures !Early(t, e)
  {
  }

  lemma AnsweringPrefix(events: seq<Event>, holdIsValid: bool)
    requires events != [] && Answering(events, holdIsValid)
    ensures Answering(events[..|events| - 1], holdIsValid)
  {
    var n := |events| - 1;
    forall i | 0 <= i < n && events[..n][i].Line? && events[..n][i].message.ResultMessage?
      ensures Request(events[..n][i].message.boundary, events[..n][i].message.requestSequence) in Run(events[..n][..i], holdIsValid).wire {
      assert events[..n][..i] == events[..i];
    }
  }

  /** With a worker that only answers, every run follows the script. */
  lemma {:induction false} AnsweringFollowsScript(events: seq<Event>, holdIsValid: bool)
    requires Answering(events, holdIsValid)
    ensures NeverEarly(events, holdIsValid) && OnScript(Run(events, holdIsValid))
  {
    if events != [] {
      var n := |events| - 1;
      AnsweringPrefix(events, holdIsValid);
      AnsweringFollowsScript(events[..n], holdIsValid);
      NeverEarlyOnScript(events[..n], holdIsValid);
      AnswersAreNotEarly(Run(events[..n], holdIsValid), events[n]);
      NeverEarlyLast(events, holdIsValid);
      NeverEarlyOnScript(events, holdIsValid);
    }
  }

  lemma NeverEarlyLast(events: seq<Event>, holdIsValid: bool)
    requires events != []
    ensures var n := |events| - 1;
            NeverEarly(events, holdIsValid) <==> NeverEarly(events[..n], holdIsValid) && !Early(Run(events[..n], holdIsValid), events[n])
  {
    var n := |events| - 1;
    forall i: nat | i < n ensures EarlyAt(events[..n], i, holdIsValid) <==> EarlyAt(events, i, holdIsValid) {
      assert events[..n][..i] == events[..i];
    }
    assert EarlyAt(events, n, holdIsValid) <==> Early(Run(events[..n], holdIsValid), events[n]);
  }

  predicate SawModel(events: seq<Event>, t: State) {
    exists i :: 0 <= i < |events| && events[i].Line? && ModelResult(t, events[i].message)
  }

  predicate SawBoth(events: seq<Event>, t: State) {
    exists j :: 0 <= j < |events| && events[j].Line? && ToolResult(t, events[j].message) && SawModel(events[..j], t)
  }

  lemma SawBefore(events: seq<Event>, t: State, u: State)
    requires events != [] && t.session == u.session
    ensures SawModel(events[..|events| - 1], t) ==> SawModel(events, u)
    ensures SawBoth(events[..|events| - 1], t) ==> SawBoth(events, u)
  {
    var n := |events| - 1;
    if SawModel(events[..n], t) {
      var i :| 0 <= i < n && events[..n][i].Line? && ModelResult(t, events[..n][i].message);
      assert events[i].Line? && ModelResult(u, events[i].message);
    }
    if SawBoth(events[..n], t) {
      var j :| 0 <= j < n && events[..n][j].Line? && ToolResult(t, events[..n][j].message) && SawModel(events[..n][..j], t);
      assert events[..n][..j] == events[..j] && SawModel(events[..j], u);
      assert events[j].Line? && ToolResult(u, events[j].message);
    }
  }

  lemma PhaseMoves(t: State, e: Event, holdIsValid: bool)
    ensures var u := Next(t, e, holdIsValid);
            && (t.phase != AwaitingStart ==> u.session == t.session)
            && (u.phase == AwaitingTool ==> t.phase == AwaitingTool || (t.phase == AwaitingModel && e.Line? && ModelResult(u, e.message)))
            && (u.phase == Completed ==> t.phase == Completed || (t.phase == AwaitingTool && e.Line? && ToolResult(u, e.message)))
            && (Finished(2) in u.wire ==> Finished(2) in t.wire || u.phase == Completed)
  {
  }

  /** `completed` is sent only after a succeeded model result and, later, a failed tool result of the session. */
  lemma {:induction false} CompletedMeans(events: seq<Event>, holdIsValid: bool)
    ensures var t := Run(events, holdIsValid);
            && (t.phase == AwaitingTool ==> SawModel(events, t))
            && (Finished(2) in t.wire ==> t.phase == Completed)
            && (t.phase == Completed ==> SawBoth(events, t))
  {
    if events != [] {
      var n := |events| - 1;
      var t, u := Run(events[..n], holdIsValid), Run(events, holdIsValid);
      CompletedMeans(events[..n], holdIsValid);
      PhaseMoves(t, events[n], holdIsValid);
      if t.phase != AwaitingStart { SawBefore(events, t, u); }
      if t.phase == AwaitingTool && u.phase == Completed { assert SawModel(events[..n], u) by { SameSession(events[..n], t, u); } }
    }
  }

  lemma SameSession(events: seq<Event>, t: State, u: State)
    requires t.session == u.session && SawModel(events, t)
    ensures SawModel(events, u)
  {
    var i :| 0 <= i < |events| && events[i].Line? && ModelResult(t, events[i].message);
    assert ModelResult(u, events[i].message);
  }

  // ---------------------------------------------------------------- exactly what each line does

  /** The model result that the target waits for, field by field. */
  function ExpectedModelResult(session: Session): Message { ResultMessage(true, Some(session), Model, 0, Model, Succeeded) }

  function ExpectedToolResult(session: Session): Message { ResultMessage(true, Some(session), Tool, 1, Tool, Failed) }

  /**
    What a line does to a target that is still writing.  Three lines move it on, each from one phase
    only; a stop ends it well and everything else ends it badly, and then nothing is sent.
   */
  lemma LineExactly(t: State, m: Message, holdIsValid: bool)
    requires !t.ended && (t.phase != AwaitingStart ==> t.session.Some?)
    ensures var u := OnLine(t, m, holdIsValid);
            var starts := t.phase == AwaitingStart && m.StartMessage? && m.accepted;
            var asks := t.phase == AwaitingModel && m == ExpectedModelResult(t.session.value);
            var completes := t.phase == AwaitingTool && m == ExpectedToolResult(t.session.value);
            && u.wire == t.wire + (if starts then [Ready(m.session)] else if asks then [Request(Tool, 1)]
                                   else if completes then [Finished(2)] else [])
            && (u.ended <==> !asks && !(starts && holdIsValid))
            && (u.ended ==> !u.timer && u.exitCode == if completes || m.StopMessage? then 0 else 1)
            && (!u.ended ==> u.exitCode == t.exitCode)
            && u.phase == (if starts then AwaitingModel else if asks then AwaitingTool else if completes then Completed else t.phase)
            && u.session == (if starts then Some(m.session) else t.session)
            && (starts && holdIsValid ==> u.timer) && (asks ==> u.timer == t.timer)
  {
    assert t.wire + [] == t.wire;
  }

  /** The timer sends the model request once, if the target is still writing. */
  lemma TimerExactly(t: State, holdIsValid: bool)
    ensures var u := Next(t, TimerFires, holdIsValid);
            && !u.timer && u.(timer := t.timer, wire := t.wire) == t
            && u.wire == t.wire + (if t.timer && !t.ended then [Request(Model, 0)] else [])
  {
    assert t.wire + [] == t.wire;
  }

  /** A worker that starts the target, waits for each request and answers it gets the whole script, and a good exit. */
  lemma ScriptIsCompleted(session: Session)
    ensures var t := Run([Line(StartMessage(true, session)), TimerFires, Line(ExpectedModelResult(session)),
                          Line(ExpectedToolResult(session))], true);
            t.wire == Script(session) && t.phase == Completed && t.ended && t.exitCode == 0
  {
    var e0, e1 := Line(StartMessage(true, session)), TimerFires;
    var e2, e3 := Line(ExpectedModelResult(session)), Line(ExpectedToolResult(session));
    var t2 := Next(Next(Initial(), e0, true), e1, true);
    assert t2 == State(AwaitingModel, Some(session), false, false, 0, [Ready(session), Request(Model, 0)]);
    RunTwo([], e0, e1);
    RunTwo([e0, e1], e2, e3);
    assert [] + [e0, e1] == [e0, e1] && [e0, e1] + [e2, e3] == [e0, e1, e2, e3];
  }

  lemma RunTwo(events: seq<Event>, e: Event, f: Event)
    ensures Run([], true) == Initial()
    ensures Run(events + [e, f], true) == Next(Next(Run(events, true), e, true), f, true)
  {
    assert (events + [e, f])[..|events| + 1] == events + [e];
    assert (events + [e])[..|events|] == events;
  }
}
