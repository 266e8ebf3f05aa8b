/**
  The controller's side of a durable replay worker: standard output arrives in chunks and is split
  into lines, each non-empty line is a control event, callers wait for events, and one report
  publication is acknowledged.
 */
module WorkerStream {
  import opened Prelude

  const NEWLINE := '\n'

  // ---------------------------------------------------------------- lines of a whole stream

  /** The newline-terminated segments of a text, without their newlines. */
  function Lines(text: string): seq<string> {
    var at := IndexOf(text);
    if at == |text| then [] else [text[..at]] + Lines(text[at + 1..])
  }

  /** What follows the last newline. */
  function Residue(text: string): string {
    var at := IndexOf(text);
    if at == |text| then text else Residue(text[at + 1..])
  }

  /** The position of the first newline, or the length. */
  function IndexOf(text: string): (at: nat)
    ensures at <= |text|
    ensures at < |text| ==> text[at] == NEWLINE
  {
    if text == "" then 0 else if text[0] == NEWLINE then 0 else 1 + IndexOf(text[1..])
  }

  lemma {:induction false} NoneBefore(text: string)
    ensures forall i | 0 <= i < IndexOf(text) :: text[i] != NEWLINE
  {
    if text != "" && text[0] != NEWLINE {
      NoneBefore(text[1..]);
      forall i | 0 < i < IndexOf(text) ensures text[i] != NEWLINE { assert text[i] == text[1..][i - 1]; }
    }
  }

  lemma IndexOfConcat(a: string, b: string)
    requires IndexOf(a) < |a|
    ensures IndexOf(a + b) == IndexOf(a)
  {
    var i, j := IndexOf(a), IndexOf(a + b);
    NoneBefore(a);
    NoneBefore(a + b);
    assert (a + b)[i] == NEWLINE;
    assert forall k | 0 <= k < i :: (a + b)[k] == a[k];
  }

  lemma SliceConcat(a: string, b: string, at: nat)
    requires at < |a|
    ensures (a + b)[..at] == a[..at] && (a + b)[at + 1..] == a[at + 1..] + b
  {
  }

  lemma Regrouped(line: string, x: seq<string>, y: seq<string>, xy: seq<string>, all: seq<string>, first: seq<string>)
    requires xy == x + y && all == [line] + xy && first == [line] + x
    ensures all == first + y
  {
  }

  lemma FirstLine(a: string, b: string)
    requires IndexOf(a) < |a|
    ensures var at := IndexOf(a);
            && Lines(a + b) == [a[..at]] + Lines(a[at + 1..] + b)
            && Residue(a + b) == Residue(a[at + 1..] + b)
  {
    IndexOfConcat(a, b);
    SliceConcat(a, b, IndexOf(a));
  }

  /** Splitting a stream at any point and carrying the residue over loses and invents no line. */
  lemma {:induction false} LinesConcat(a: string, b: string)
    ensures Lines(a + b) == Lines(a) + Lines(Residue(a) + b)
    ensures Residue(a + b) == Residue(Residue(a) + b)
    decreases |a|
  {
    var at := IndexOf(a);
    if at < |a| {
      var rest := a[at + 1..];
      LinesConcat(rest, b);
      FirstLine(a, b);
      Regrouped(a[..at], Lines(rest), Lines(Residue(rest) + b), Lines(rest + b), Lines(a + b), Lines(a));
    } else {
      NothingBefore(Lines(a + b));
    }
  }

  lemma NothingBefore(lines: seq<string>)
    ensures [] + lines == lines
  {
  }

  function Joined(lines: seq<string>): string {
    if lines == [] then "" else lines[0] + [NEWLINE] + Joined(lines[1..])
  }

  lemma JoinedCons(line: string, rest: seq<string>)
    ensures Joined([line] + rest) == line + [NEWLINE] + Joined(rest)
  {
    assert ([line] + rest)[1..] == rest;
  }

  lemma SplitAt(text: string, at: nat)
    requires at < |text| && text[at] == NEWLINE
    ensures text == text[..at] + [NEWLINE] + text[at + 1..]
  {
  }

  /** The lines and the residue hold the whole text: nothing is lost and nothing is added. */
  lemma {:induction false} LinesRejoin(text: string)
    ensures Joined(Lines(text)) + Residue(text) == text
    decreases |text|
  {
    var at := IndexOf(text);
    if at < |text| {
      var line, rest := text[..at], text[at + 1..];
      SplitAt(text, at);
      LinesRejoin(rest);
      JoinedCons(line, Lines(rest));
      Regroup(line + [NEWLINE], Joined(Lines(rest)), Residue(rest));
    } else {
      assert "" + text == text;
    }
  }

  lemma Regroup(a: string, b: string, c: string)
    ensures a + b + c == a + (b + c)
  {
  }

  /** No line, and no residue, holds a newline. */
  lemma {:induction false} LinesHoldNoNewline(text: string)
    ensures NEWLINE !in Residue(text) && forall line | line in Lines(text) :: NEWLINE !in line
    decreases |text|
  {
    NoneBefore(text);
    if IndexOf(text) < |text| { LinesHoldNoNewline(text[IndexOf(text) + 1..]); }
  }

  // ---------------------------------------------------------------- the controller

  /** A control event by its name; `isReport` marks a request to publish a report. */
  datatype Control = Control(name: string, isReport: bool)

  type Parser = string -> Option<Control>

  datatype Settlement = Resolved(event: Control) | Rejected

  datatype Publication = NotRequested | InFlight | Settled

  datatype Worker = Worker(
    runsReplay: bool,                      // the command is "run"
    buffer: string,
    events: seq<Control>,
    waiters: map<nat, string>,             // callers that wait, each for an event name
    issued: nat,                           // waiters made so far
    settled: map<nat, Settlement>,
    failed: bool,
    completed: bool,
    publication: Publication,
    acknowledgements: nat)

  datatype Step =
    | Chunk(text: string)
    | Close(exitedWell: bool)
    | Wait(name: string)
    | Expire(waiter: nat)
    | Published(ok: bool)
    | Stdin

  function Fresh(runsReplay: bool): Worker { Worker(runsReplay, "", [], map[], 0, map[], false, false, NotRequested, 0) }

  /** Settle the waiters in `ids`. */
  function Settle(w: Worker, ids: set<nat>, outcome: Settlement): Worker {
    w.(waiters := w.waiters - ids, settled := map i | i in w.settled.Keys + ids :: if i in ids then outcome else w.settled[i])
  }

  /** The waiters for an event, or all of them. */
  function Chosen(waiters: map<nat, string>, name: Option<string>): set<nat> {
    if name.None? then waiters.Keys else set i | i in waiters && waiters[i] == name.value
  }

  /** A second report request, or one outside a run, fails the worker before anyone is told. */
  function Publish(w: Worker, event: Control): Worker {
    var v := w.(events := w.events + [event]);
    if event.isReport && (v.publication != NotRequested || !v.runsReplay) then v.(failed := true)
    else
      var u := if event.isReport then v.(publication := InFlight) else v;
      Settle(u, Chosen(u.waiters, Some(event.name)), Resolved(event))
  }

  function ParseLine(w: Worker, line: string, parse: Parser): Worker {
    if line == "" then w
    else match parse(line)
         case None => w.(failed := true)
         case Some(event) => Publish(w, event)
  }

  function ParseLines(w: Worker, lines: seq<string>, parse: Parser): Worker
    decreases |lines|
  {
    if lines == [] then w else ParseLines(ParseLine(w, lines[0], parse), lines[1..], parse)
  }

  function OnClose(w: Worker, exitedWell: bool, parse: Parser): Worker {
    var v := ParseLine(w, w.buffer, parse).(completed := true);
    var u := v.(failed := v.failed || !exitedWell);
    Settle(u, u.waiters.Keys, Rejected)
  }

  predicate Emitted(w: Worker, name: string) { exists i :: 0 <= i < |w.events| && w.events[i].name == name }

  function Next(w: Worker, step: Step, parse: Parser): Worker {
    match step
    case Chunk(text) =>
      if w.completed then w
      else ParseLines(w, Lines(w.buffer + text), parse).(buffer := Residue(w.buffer + text))
    case Close(exitedWell) => if w.completed then w else OnClose(w, exitedWell, parse)
    case Wait(name) =>
      if Emitted(w, name) || w.completed then w
      else w.(waiters := w.waiters[w.issued := name], issued := w.issued + 1)
    case Expire(i) => if i in w.waiters then Settle(w, {i}, Rejected) else w
    case Published(ok) =>
      if w.publication != InFlight then w
      else
        var v := w.(publication := Settled);
        if !ok then v.(failed := true)
        else if w.completed then v
        else v.(acknowledgements := v.acknowledgements + 1)
    case Stdin => if w.completed then w else w.(failed := true)
  }

  function Run(steps: seq<Step>, runsReplay: bool, parse: Parser): Worker {
    if steps == [] then Fresh(runsReplay) else Next(Run(steps[..|steps| - 1], runsReplay, parse), steps[|steps| - 1], parse)
  }

  // ---------------------------------------------------------------- the controller as an object

  class Controller {
    const runsReplay: bool
    const parse: Parser
    var stdout: string
    var events: seq<Control>
    var waiters: map<nat, string>
    var issued: nat
    var settled: map<nat, Settlement>
    var failed: bool
    var completed: bool
    var publication: Publication
    var acknowledgements: nat

    ghost function State(): Worker reads this {
      Worker(runsReplay, stdout, events, waiters, issued, settled, failed, completed, publication, acknowledgements)
    }

    constructor (runsReplay: bool, parse: Parser)
      ensures State() == Fresh(runsReplay) && this.parse == parse
    {
      this.runsReplay, this.parse := runsReplay, parse;
      stdout, events, waiters, issued, settled := "", [], map[], 0, map[];
      failed, completed, publication, acknowledgements := false, false, NotRequested, 0;
    }

    /** Settle the waiters for `name`, or all of them, one by one and in any order. */
    method SettleWaiters(name: Option<string>, outcome: Settlement)
      modifies this`waiters, this`settled
      ensures State() == Settle(old(State()), Chosen(old(waiters), name), outcome)
    {
      ghost var start := State();
      ghost var chosen := Chosen(waiters, name);
      ghost var done: set<nat> := {};
      var rest := Chosen(waiters, name);
      SettleOne(start, {}, 0, outcome);
      while rest != {}
        invariant done + rest == chosen
        invariant State() == Settle(start, done, outcome)
        decreases rest
      {
        var i :| i in rest;
        SettleWaiter(start, done, i, outcome);
        done, rest := done + {i}, rest - {i};
      }
    }

    method SettleWaiter(ghost start: Worker, ghost done: set<nat>, i: nat, outcome: Settlement)
      requires State() == Settle(start, done, outcome)
      modifies this`waiters, this`settled
      ensures State() == Settle(start, done + {i}, outcome)
    {
      SettleOne(start, done, i, outcome);
      waiters := waiters - {i};
      settled := settled[i := outcome];
    }

    method PublishEvent(event: Control)
      modifies this
      ensures State() == Publish(old(State()), event)
    {
      events := events + [event];
      if event.isReport {
        if publication != NotRequested || !runsReplay { failed := true; return; }
        publication := InFlight;
      }
      SettleWaiters(Some(event.name), Resolved(event));
    }

    method HandleLine(line: string)
      modifies this
      ensures State() == ParseLine(old(State()), line, parse)
    {
      if line == "" { return; }
      var event := parse(line);
      match event {
        case None => failed := true;
        case Some(control) => PublishEvent(control);
      }
    }

    /** The data handler: cut off one line after the other and hand it on. */
    method Data(chunk: string)
      modifies this
      ensures State() == Next(old(State()), Chunk(chunk), parse)
    {
      if completed { return; }
      ghost var start := State();
      ghost var whole := stdout + chunk;
      var rest := stdout + chunk;
      while IndexOf(rest) < |rest|
        invariant ParseLines(State(), Lines(rest), parse) == ParseLines(start, Lines(whole), parse)
        invariant Residue(rest) == Residue(whole)
        decreases |rest|
      {
        var newline := IndexOf(rest);
        var line := rest[..newline];
        assert Lines(rest)[0] == line && Lines(rest)[1..] == Lines(rest[newline + 1..]);
        rest := rest[newline + 1..];
        HandleLine(line);
      }
      stdout := rest;
    }

    method Closed(exitedWell: bool)
      modifies this
      ensures State() == Next(old(State()), Close(exitedWell), parse)
    {
      if completed { return; }
      HandleLine(stdout);
      completed := true;
      if !exitedWell { failed := true; }
      SettleWaiters(None, Rejected);
    }

    /** waitForEvent: an event that has been seen is returned at once, and after the close nothing waits. */
    method WaitForEvent(name: string) returns (waiter: Option<nat>)
      modifies this
      ensures State() == Next(old(State()), Wait(name), parse)
      ensures waiter.Some? <==> !old(completed) && !Emitted(old(State()), name)
    {
      var seen := false;
      for i := 0 to |events|
        invariant State() == old(State())
        invariant seen <==> exists j :: 0 <= j < i && events[j].name == name
      {
        if events[i].name == name { seen := true; }
      }
      if seen || completed { return None; }
      waiters := waiters[issued := name];
      waiter := Some(issued);
      issued := issued + 1;
    }

    method Expired(waiter: nat)
      modifies this
      ensures State() == Next(old(State()), Expire(waiter), parse)
    {
      if waiter in waiters {
        SettleOne(State(), {}, waiter, Rejected);
        assert {} + {waiter} == {waiter};
        SettleWaiter(State(), {}, waiter, Rejected);
      }
    }

    method InputFailed()
      modifies this
      ensures State() == Next(old(State()), Stdin, parse)
    {
      if !completed { failed := true; }
    }

    method ReportPublished(ok: bool)
      modifies this
      ensures State() == Next(old(State()), Published(ok), parse)
    {
      if publication != InFlight { return; }
      publication := Settled;
      if !ok { failed := true; return; }
      if completed { return; }
      acknowledgements := acknowledgements + 1;
    }
  }

  lemma SettleOne(w: Worker, done: set<nat>, i: nat, outcome: Settlement)
    ensures var v := Settle(w, done, outcome);
            v.(waiters := v.waiters - {i}, settled := v.settled[i := outcome]) == Settle(w, done + {i}, outcome)
    ensures Settle(w, {}, outcome) == w
  {
    var v := Settle(w, done, outcome);
    assert v.waiters - {i} == w.waiters - (done + {i});
    assert Settle(w, {}, outcome).waiters == w.waiters;
  }

  // ---------------------------------------------------------------- chunking does not matter

  /** The text of all chunks up to the close. */
  function Streamed(steps: seq<Step>): string {
    if steps == [] then ""
    else
      var before := Streamed(steps[..|steps| - 1]);
      if steps[|steps| - 1].Chunk? then before + steps[|steps| - 1].text else before
  }

  predicate Open(steps: seq<Step>) { forall i | 0 <= i < |steps| :: !steps[i].Close? }

  /** What a list of lines contributes to the event log. */
  function EventsOf(lines: seq<string>, parse: Parser): seq<Control> {
    if lines == [] then []
    else
      var event := if lines[|lines| - 1] == "" then None else parse(lines[|lines| - 1]);
      EventsOf(lines[..|lines| - 1], parse) + if event.Some? then [event.value] else []
  }

  lemma {:induction false} EventsConcat(a: seq<string>, b: seq<string>, parse: Parser)
    ensures EventsOf(a + b, parse) == EventsOf(a, parse) + EventsOf(b, parse)
  {
    if b == [] {
      assert a + b == a;
    } else {
      assert (a + b)[..|a + b| - 1] == a + b[..|b| - 1];
      EventsConcat(a, b[..|b| - 1], parse);
    }
  }

  lemma OneLine(w: Worker, line: string, parse: Parser)
    ensures ParseLine(w, line, parse).events == w.events + EventsOf([line], parse)
    ensures ParseLine(w, line, parse).buffer == w.buffer && ParseLine(w, line, parse).completed == w.completed
  {
    assert [line][..0] == [];
    assert EventsOf([line], parse) == if line != "" && parse(line).Some? then [parse(line).value] else [];
    assert w.events + [] == w.events;
  }

  lemma {:induction false} LinesAddEvents(w: Worker, lines: seq<string>, parse: Parser)
    ensures var v := ParseLines(w, lines, parse);
            v.events == w.events + EventsOf(lines, parse) && v.buffer == w.buffer && v.completed == w.completed
    decreases |lines|
  {
    if lines == [] {
      assert w.events + [] == w.events;
    } else {
      OneLine(w, lines[0], parse);
      var v := ParseLine(w, lines[0], parse);
      LinesAddEvents(v, lines[1..], parse);
      assert [lines[0]] + lines[1..] == lines;
      EventsConcat([lines[0]], lines[1..], parse);
      assert (w.events + EventsOf([lines[0]], parse)) + EventsOf(lines[1..], parse) == w.events + (EventsOf([lines[0]], parse) + EventsOf(lines[1..], parse));
    }
  }

  /**
    For any chunking: until the close, the lines handed on are exactly the newline-terminated
    segments of the whole stream so far, in order, and the buffer is the residue.
   */
  lemma {:induction false} ChunkingIrrelevant(steps: seq<Step>, runsReplay: bool, parse: Parser)
    requires Open(steps)
    ensures var w := Run(steps, runsReplay, parse);
            && !w.completed
            && w.buffer == Residue(Streamed(steps))
            && w.events == EventsOf(Lines(Streamed(steps)), parse)
  {
    if steps != [] {
      var n := |steps| - 1;
      assert !steps[n].Close?;
      assert Open(steps[..n]);
      ChunkingIrrelevant(steps[..n], runsReplay, parse);
      if steps[n].Chunk? {
        NextChunk(Run(steps[..n], runsReplay, parse), Streamed(steps[..n]), steps[n].text, parse);
      } else {
        NextElse(Run(steps[..n], runsReplay, parse), steps[n], parse);
      }
    }
  }

  lemma NextElse(w: Worker, step: Step, parse: Parser)
    requires !step.Chunk? && !step.Close?
    ensures var v := Next(w, step, parse); v.completed == w.completed && v.buffer == w.buffer && v.events == w.events
  {
  }

  lemma NextChunk(w: Worker, before: string, text: string, parse: Parser)
    requires !w.completed && w.buffer == Residue(before) && w.events == EventsOf(Lines(before), parse)
    ensures var v := Next(w, Chunk(text), parse);
            !v.completed && v.buffer == Residue(before + text) && v.events == EventsOf(Lines(before + text), parse)
  {
    LinesConcat(before, text);
    LinesAddEvents(w, Lines(w.buffer + text), parse);
    EventsConcat(Lines(before), Lines(Residue(before) + text), parse);
  }

  /** At the close a residue counts as one more line, and that is the whole event log for good. */
  lemma CloseTakesResidue(steps: seq<Step>, exitedWell: bool, runsReplay: bool, parse: Parser)
    requires Open(steps)
    ensures Run(steps + [Close(exitedWell)], runsReplay, parse).completed
    ensures Run(steps + [Close(exitedWell)], runsReplay, parse).events ==
            EventsOf(Lines(Streamed(steps)) + [Residue(Streamed(steps))], parse)
  {
    var all := steps + [Close(exitedWell)];
    assert all[..|steps|] == steps;
    ChunkingIrrelevant(steps, runsReplay, parse);
    OneLine(Run(steps, runsReplay, parse), Residue(Streamed(steps)), parse);
    EventsConcat(Lines(Streamed(steps)), [Residue(Streamed(steps))], parse);
  }

  // ---------------------------------------------------------------- waiters and the acknowledgement

  /** Every waiter made is waiting or settled, never both, and none waits after the close. */
  predicate WaitersOk(w: Worker) {
    && (forall i | i in w.waiters :: i < w.issued && i !in w.settled)
    && (forall i | i in w.settled :: i < w.issued)
    && (forall i | 0 <= i < w.issued :: i in w.waiters || i in w.settled)
    && (w.completed ==> w.waiters == map[])
  }

  predicate AcknowledgedOk(w: Worker) {
    w.acknowledgements <= (if w.publication == Settled then 1 else 0) && (w.publication != NotRequested ==> w.runsReplay)
  }

  /** `v` may follow `w`: what is settled stays as it is settled. */
  predicate Follows(w: Worker, v: Worker) {
    && w.issued <= v.issued && (w.completed ==> v.completed) && w.runsReplay == v.runsReplay
    && forall i | i in w.settled :: i in v.settled && v.settled[i] == w.settled[i]
  }

  lemma SettleOk(w: Worker, ids: set<nat>, outcome: Settlement)
    requires WaitersOk(w) && ids <= w.waiters.Keys
    ensures var v := Settle(w, ids, outcome); WaitersOk(v) && Follows(w, v)
  {
  }

  lemma ParseLineOk(w: Worker, line: string, parse: Parser)
    requires WaitersOk(w) && AcknowledgedOk(w)
    ensures var v := ParseLine(w, line, parse); WaitersOk(v) && AcknowledgedOk(v) && Follows(w, v)
  {
    if line != "" && parse(line).Some? {
      var event := parse(line).value;
      var v := w.(events := w.events + [event]);
      var u := if event.isReport then v.(publication := InFlight) else v;
      assert WaitersOk(u);
      SettleOk(u, Chosen(u.waiters, Some(event.name)), Resolved(event));
    }
  }

  lemma {:induction false} ParseLinesOk(w: Worker, lines: seq<string>, parse: Parser)
    requires WaitersOk(w) && AcknowledgedOk(w)
    ensures var v := ParseLines(w, lines, parse); WaitersOk(v) && AcknowledgedOk(v) && Follows(w, v)
    decreases |lines|
  {
    if lines != [] {
      ParseLineOk(w, lines[0], parse);
      ParseLinesOk(ParseLine(w, lines[0], parse), lines[1..], parse);
    }
  }

  lemma CloseOk(w: Worker, exitedWell: bool, parse: Parser)
    requires WaitersOk(w) && AcknowledgedOk(w) && !w.completed
    ensures var v := OnClose(w, exitedWell, parse); WaitersOk(v) && AcknowledgedOk(v) && Follows(w, v)
  {
    ParseLineOk(w, w.buffer, parse);
    var v := ParseLine(w, w.buffer, parse);
    SettleOk(v, v.waiters.Keys, Rejected);
  }

  lemma NextOk(w: Worker, step: Step, parse: Parser)
    requires WaitersOk(w) && AcknowledgedOk(w)
    ensures var v := Next(w, step, parse); WaitersOk(v) && AcknowledgedOk(v) && Follows(w, v)
  {
    match step {
      case Chunk(text) => if !w.completed { ParseLinesOk(w, Lines(w.buffer + text), parse); }
      case Close(exitedWell) => if !w.completed { CloseOk(w, exitedWell, parse); }
      case Expire(i) => if i in w.waiters { SettleOk(w, {i}, Rejected); }
      case _ =>
    }
  }

  lemma {:induction false} RunKeeps(steps: seq<Step>, runsReplay: bool, parse: Parser)
    ensures var w := Run(steps, runsReplay, parse); WaitersOk(w) && AcknowledgedOk(w)
  {
    if steps != [] {
      var n := |steps| - 1;
      RunKeeps(steps[..n], runsReplay, parse);
      NextOk(Run(steps[..n], runsReplay, parse), steps[n], parse);
    }
  }

  lemma FollowsTransitive(u: Worker, v: Worker, w: Worker)
    requires Follows(u, v) && Follows(v, w)
    ensures Follows(u, w)
  {
  }

  lemma LastFollows(steps: seq<Step>, runsReplay: bool, parse: Parser)
    requires steps != []
    ensures Follows(Run(steps[..|steps| - 1], runsReplay, parse), Run(steps, runsReplay, parse))
  {
    RunKeeps(steps[..|steps| - 1], runsReplay, parse);
    NextOk(Run(steps[..|steps| - 1], runsReplay, parse), steps[|steps| - 1], parse);
  }

  lemma {:induction false} RunFollows(steps: seq<Step>, runsReplay: bool, parse: Parser, i: nat)
    requires i <= |steps|
    ensures Follows(Run(steps[..i], runsReplay, parse), Run(steps, runsReplay, parse))
  {
    if i == |steps| {
      assert steps[..i] == steps;
    } else {
      var n := |steps| - 1;
      assert steps[..n][..i] == steps[..i];
      RunFollows(steps[..n], runsReplay, parse, i);
      LastFollows(steps, runsReplay, parse);
      FollowsTransitive(Run(steps[..i], runsReplay, parse), Run(steps[..n], runsReplay, parse), Run(steps, runsReplay, parse));
    }
  }

  /**
    In every run: a waiter is settled at most once and its settlement never changes; after the close
    every waiter ever made is settled; and at most one acknowledgement is written, only when the
    worker was told to run.
   */
  lemma SettledOnce(steps: seq<Step>, runsReplay: bool, parse: Parser, i: nat, waiter: nat)
    requires i <= |steps|
    ensures var before, w := Run(steps[..i], runsReplay, parse), Run(steps, runsReplay, parse);
            && (waiter in before.settled ==> waiter in w.settled && w.settled[waiter] == before.settled[waiter] && waiter !in w.waiters)
            && (w.completed && waiter < w.issued ==> waiter in w.settled)
            && w.acknowledgements <= 1 && (w.acknowledgements == 1 ==> runsReplay)
  {
    RunKeeps(steps, runsReplay, parse);
    RunFollows(steps, runsReplay, parse, i);
    RunsReplay(steps, runsReplay, parse);
  }

  lemma {:induction false} RunsReplay(steps: seq<Step>, runsReplay: bool, parse: Parser)
    ensures Run(steps, runsReplay, parse).runsReplay == runsReplay
  {
    if steps != [] {
      var n := |steps| - 1;
      var w := Run(steps[..n], runsReplay, parse);
      RunsReplay(steps[..n], runsReplay, parse);
      if steps[n].Chunk? { LinesKeepCommand(w, Lines(w.buffer + steps[n].text), parse); }
    }
  }

  lemma {:induction false} LinesKeepCommand(w: Worker, lines: seq<string>, parse: Parser)
    ensures ParseLines(w, lines, parse).runsReplay == w.runsReplay
    decreases |lines|
  {
    if lines != [] { LinesKeepCommand(ParseLine(w, lines[0], parse), lines[1..], parse); }
  }

  // ---------------------------------------------------------------- exactly what each step does

  function Lookup<K, V>(m: map<K, V>, k: K): Option<V> { if k in m then Some(m[k]) else None }

  /** Everything but the fields that an event can touch. */
  predicate SameBeside(w: Worker, v: Worker) {
    w.runsReplay == v.runsReplay && w.buffer == v.buffer && w.issued == v.issued && w.completed == v.completed
    && w.acknowledgements == v.acknowledgements
  }

  /**
    An event settles exactly the callers that wait for it, unless it is a report request that is the
    second one or comes outside a run: that one fails the worker and settles nobody.
   */
  lemma PublishExactly(w: Worker, event: Control)
    requires WaitersOk(w)
    ensures var v := Publish(w, event);
            var invalid := event.isReport && (w.publication != NotRequested || !w.runsReplay);
            && v.events == w.events + [event] && SameBeside(w, v)
            && (v.failed <==> w.failed || invalid)
            && v.publication == (if event.isReport && !invalid then InFlight else w.publication)
            && (forall i | i in w.waiters ::
                  if !invalid && w.waiters[i] == event.name then
                    i !in v.waiters && Lookup(v.settled, i) == Some(Resolved(event))
                  else Lookup(v.waiters, i) == Some(w.waiters[i]) && i !in v.settled)
            && (forall i | i !in w.waiters :: i !in v.waiters && Lookup(v.settled, i) == Lookup(w.settled, i))
  {
  }

  /** A line is nothing when it is empty, an event when it parses, and a failure otherwise. */
  lemma LineExactly(w: Worker, line: string, parse: Parser)
    ensures var v := ParseLine(w, line, parse);
            && (line == "" ==> v == w)
            && (line != "" && parse(line).Some? ==> v == Publish(w, parse(line).value))
            && (line != "" && parse(line).None? ==> v.failed && v.(failed := w.failed) == w)
  {
  }

  /** The close takes the residue as a line, fails the worker on a bad exit, and rejects whoever still waits. */
  lemma CloseExactly(w: Worker, exitedWell: bool, parse: Parser)
    requires WaitersOk(w) && AcknowledgedOk(w) && !w.completed
    ensures var u, v := ParseLine(w, w.buffer, parse), Next(w, Close(exitedWell), parse);
            && v.completed && v.events == u.events && v.publication == u.publication && v.acknowledgements == u.acknowledgements
            && (v.failed <==> u.failed || !exitedWell)
            && v.waiters == map[]
            && (forall i | i in u.waiters :: Lookup(v.settled, i) == Some(Rejected))
            && (forall i | i !in u.waiters :: Lookup(v.settled, i) == Lookup(u.settled, i))
  {
    ParseLineOk(w, w.buffer, parse);
  }

  /** The acknowledgement is written exactly when the requested publication succeeds before the worker is gone. */
  lemma PublishedExactly(w: Worker, ok: bool, parse: Parser)
    ensures var v := Next(w, Published(ok), parse);
            var settles := w.publication == InFlight;
            && v.acknowledgements == w.acknowledgements + (if settles && ok && !w.completed then 1 else 0)
            && (v.failed <==> w.failed || (settles && !ok))
            && v.publication == (if settles then Publication.Settled else w.publication)
            && v.(acknowledgements := w.acknowledgements, failed := w.failed, publication := w.publication) == w
  {
  }

  /** A caller waits exactly when its event has not been seen and the worker has not closed; a timeout rejects it alone. */
  lemma WaitsExactly(w: Worker, name: string, i: nat, parse: Parser)
    requires WaitersOk(w)
    ensures var v := Next(w, Wait(name), parse);
            if w.completed || exists e :: e in w.events && e.name == name then v == w
            else v.waiters == w.waiters[w.issued := name] && v.issued == w.issued + 1
                 && v.(waiters := w.waiters, issued := w.issued) == w
    ensures var v := Next(w, Expire(i), parse);
            if i in w.waiters then
              && v.waiters == w.waiters - {i} && v.settled == w.settled[i := Rejected]
              && v.(waiters := w.waiters, settled := w.settled) == w
            else v == w
  {
    assert Emitted(w, name) <==> exists e :: e in w.events && e.name == name;
    if i in w.waiters { assert Settle(w, {i}, Rejected).settled == w.settled[i := Rejected]; }
  }
}
