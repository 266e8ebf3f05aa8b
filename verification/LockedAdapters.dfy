/**
  The coordinated adapters inside their mutex.  A call is a task of many small steps, one for every
  store it reads or changes, and any number of calls are interleaved at will; only the promise chain
  keeps them apart.
 */
module LockedAdapters {
  import opened Prelude
  import A = AsyncMutex
  import opened ArtifactContract
  import opened Catalog
  import opened RegressionStore
  import opened Coordination

  /** Where a call stands.  A task that has returned or thrown is done. */
  datatype Task =
    | Pending(call: AdapterCall)
    | Seeding(version: Version, lineage: Option<StoreError>, intentFails: bool, bindings: seq<Binding>)
    | Publishing(version: Version, lineage: Option<StoreError>, intentFails: bool)
    | CheckingOwners(ownerships: seq<Ownership>, unchecked: seq<Ownership>)
    | Claiming(ownerships: seq<Ownership>)
    | CheckingContent(revocation: Revocation, stones: seq<Tombstone>, intentFails: bool, unchecked: seq<Ownership>)
    | Revoking(revocation: Revocation, stones: seq<Tombstone>, intentFails: bool)
    | Burying(scope: Scope, stones: seq<Tombstone>)
    | Done

  /** One step of a task: what it does to the stores and where it then stands. */
  function Advance(s: Stores, t: Task): (Stores, Task) {
    match t
    case Pending(call) => Begin(s, call)
    case Seeding(v, lineage, intentFails, bs) =>
      if bs == [] then (s, Publishing(v, lineage, intentFails)) else SeedNext(s, v, lineage, intentFails, bs)
    case Publishing(v, lineage, intentFails) =>
      var reply := Publish(s.regression, v, lineage, intentFails);
      if reply.result.Err? then (s, Done)
      else (s.(regression := reply.store), CheckingOwners(reply.result.value.ownerships, reply.result.value.ownerships))
    case CheckingOwners(os, rest) =>
      if rest == [] then (s, Claiming(os))
      else (s, if Disowned(s.entries, rest[0]) then Done else CheckingOwners(os, rest[1..]))
    case Claiming(os) =>
      if os == [] then (s, Done)
      else
        var o := Claim(s.entries, os[0]);
        if o.result.Err? then (s, Done) else (s.(entries := o.entries), Claiming(os[1..]))
    case CheckingContent(revocation, ts, intentFails, rest) =>
      if rest == [] then (s, Revoking(revocation, ts, intentFails))
      else if !Exact(Find(s.entries, rest[0].scope, rest[0].artifactId), rest[0]) then (s, Done)
      else (s, CheckingContent(revocation, ts, intentFails, rest[1..]))
    case Revoking(revocation, ts, intentFails) =>
      var reply := Revoke(s.regression, revocation, ts, intentFails);
      if reply.result.Err? then (s, Done)
      else (s.(regression := reply.store), Burying(reply.result.value.version.scope, reply.result.value.tombstones))
    case Burying(scope, ts) =>
      if ts == [] then (s, Done)
      else
        var o := TombstoneOwned(s.entries, scope, ts[0]);
        if o.result.Err? then (s, Done) else (s.(entries := o.entries), Burying(scope, ts[1..]))
    case Done => (s, Done)
  }

  function Begin(s: Stores, call: AdapterCall): (Stores, Task) {
    match call
    case OnCatalog(c) => (s.(entries := CatalogNext(s.entries, c)), Done)
    case OnPublish(v, lineage, intentFails) =>
      (match FindVersion(s.regression, v)
       case Err(_) => (s, Done)
       case Ok(found) => (s, if found then Publishing(v, lineage, intentFails) else Seeding(v, lineage, intentFails, v.artifacts)))
    case OnRevoke(revocation, ts, intentFails) =>
      (match FindContent(s.regression, revocation.scope, revocation.fixtureVersionId)
       case Err(_) => (s, Done)
       case Ok(found) => (s, CheckingContent(revocation, ts, intentFails, if found.Some? then Expected(found.value) else [])))
  }

  function SeedNext(s: Stores, v: Version, lineage: Option<StoreError>, intentFails: bool, bs: seq<Binding>): (Stores, Task)
    requires bs != []
  {
    var e := Find(s.entries, v.scope, bs[0].reference.artifactId);
    if e.None? then (s, Done)
    else
      var seeded := Seed(s.regression, e.value.metadata);
      if seeded.Err? then (s, Done) else (s.(regression := seeded.value), Seeding(v, lineage, intentFails, bs[1..]))
  }

  // ---------------------------------------------------------------- a task alone

  /** The stores that a task leaves if nothing else touches them until it is done. */
  function Outcome(s: Stores, t: Task): Stores {
    match t
    case Pending(call) => AdapterNext(s, call)
    case Seeding(v, lineage, intentFails, bs) =>
      var seeded := SeedAll(s.entries, s.regression, v.scope, bs);
      var n := s.(regression := seeded.store);
      if seeded.result.Err? then n else PublishSeeded(n, v, lineage, intentFails).stores
    case Publishing(v, lineage, intentFails) => PublishSeeded(s, v, lineage, intentFails).stores
    case CheckingOwners(os, rest) =>
      if exists i :: 0 <= i < |rest| && Disowned(s.entries, rest[i]) then s else s.(entries := ClaimAll(s.entries, os).0)
    case Claiming(os) => s.(entries := ClaimAll(s.entries, os).0)
    case CheckingContent(revocation, ts, intentFails, rest) =>
      if AnyInexact(s.entries, rest) then s else RevokeFound(s, revocation, ts, intentFails).stores
    case Revoking(revocation, ts, intentFails) => RevokeFound(s, revocation, ts, intentFails).stores
    case Burying(scope, ts) => s.(entries := BuryAll(s.entries, scope, ts).0)
    case Done => s
  }

  lemma BeginKeepsOutcome(s: Stores, call: AdapterCall)
    ensures var (v, u) := Begin(s, call); Outcome(v, u) == AdapterNext(s, call)
  {
  }

  lemma PublishKeepsOutcome(s: Stores, t: Task)
    requires t.Seeding? || t.Publishing? || t.Claiming?
    ensures var (v, u) := Advance(s, t); Outcome(v, u) == Outcome(s, t)
  {
  }

  lemma CheckKeepsOutcome(s: Stores, t: Task)
    requires t.CheckingOwners? || t.CheckingContent?
    ensures var (v, u) := Advance(s, t); Outcome(v, u) == Outcome(s, t)
  {
    if t.unchecked != [] {
      InexactNext(s.entries, t.unchecked);
      DisownedNext(s.entries, t.unchecked);
    }
  }

  lemma RevokeKeepsOutcome(s: Stores, t: Task)
    requires t.Revoking? || t.Burying? || t.Done?
    ensures var (v, u) := Advance(s, t); Outcome(v, u) == Outcome(s, t)
  {
  }

  /** Each small step leaves the outcome as it was. */
  lemma AdvanceKeepsOutcome(s: Stores, t: Task)
    ensures var (v, u) := Advance(s, t); Outcome(v, u) == Outcome(s, t)
  {
    if t.Pending? { BeginKeepsOutcome(s, t.call); }
    else if t.Seeding? || t.Publishing? || t.Claiming? { PublishKeepsOutcome(s, t); }
    else if t.CheckingOwners? || t.CheckingContent? { CheckKeepsOutcome(s, t); }
    else { RevokeKeepsOutcome(s, t); }
  }

  lemma DisownedNext(entries: Entries, os: seq<Ownership>)
    requires os != []
    ensures (exists i :: 0 <= i < |os| && Disowned(entries, os[i])) <==>
            Disowned(entries, os[0]) || exists i :: 0 <= i < |os[1..]| && Disowned(entries, os[1..][i])
  {
    assert os == [os[0]] + os[1..];
  }

  lemma InexactNext(entries: Entries, os: seq<Ownership>)
    requires os != []
    ensures AnyInexact(entries, os) <==>
            !Exact(Find(entries, os[0].scope, os[0].artifactId), os[0]) || AnyInexact(entries, os[1..])
  {
    assert os == [os[0]] + os[1..];
  }

  function Stage(t: Task): nat {
    match t
    case Pending(_) => 8
    case Seeding(_, _, _, _) => 7
    case CheckingContent(_, _, _, _) => 6
    case Publishing(_, _, _) => 5
    case Revoking(_, _, _) => 4
    case CheckingOwners(_, _) => 3
    case Claiming(_) => 2
    case Burying(_, _) => 1
    case Done => 0
  }

  function Left(t: Task): nat {
    match t
    case Seeding(_, _, _, bs) => |bs|
    case CheckingContent(_, _, _, rest) => |rest|
    case CheckingOwners(_, rest) => |rest|
    case Claiming(os) => |os|
    case Burying(_, ts) => |ts|
    case _ => 0
  }

  lemma AdvanceEnds(s: Stores, t: Task)
    requires t != Done
    ensures var u := Advance(s, t).1; Stage(u) < Stage(t) || (Stage(u) == Stage(t) && Left(u) < Left(t))
  {
  }

  /** A task alone, step by step. */
  function RunAlone(s: Stores, t: Task): Stores
    decreases Stage(t), Left(t)
  {
    if t == Done then s
    else
      AdvanceEnds(s, t);
      RunAlone(Advance(s, t).0, Advance(s, t).1)
  }

  /** Every task ends, and the small steps of a call add up to the call. */
  lemma {:induction false} StepsAddUp(s: Stores, t: Task)
    ensures RunAlone(s, t) == Outcome(s, t)
    decreases Stage(t), Left(t)
  {
    if t != Done {
      AdvanceEnds(s, t);
      AdvanceKeepsOutcome(s, t);
      StepsAddUp(Advance(s, t).0, Advance(s, t).1);
    }
  }

  // ---------------------------------------------------------------- many tasks and one mutex

  type Lock = A.Lock<()>

  /** The mutex, the calls made so far with their tasks, how many have left, and the stores they share. */
  datatype System = System(lock: Lock, calls: seq<AdapterCall>, tasks: seq<Task>, served: nat, stores: Stores)

  datatype Event = Arrive(call: AdapterCall) | Resume(t: nat) | Work(t: nat) | Leave(t: nat)

  function Initial(): System { System(A.Fresh(), [], [], 0, Empty()) }

  /** A task works only inside the mutex and leaves it only when it is done. */
  function Next(y: System, e: Event): System {
    match e
    case Arrive(call) => y.(lock := A.Next(y.lock, A.Enqueue), calls := y.calls + [call], tasks := y.tasks + [Pending(call)])
    case Resume(t) => y.(lock := A.Next(y.lock, A.Resume(t)))
    case Work(t) =>
      if !A.InPhase(y.lock, t, A.Inside) || t >= |y.tasks| then y
      else
        var (v, u) := Advance(y.stores, y.tasks[t]);
        y.(lock := A.Next(y.lock, A.Act(t, ())), tasks := y.tasks[t := u], stores := v)
    case Leave(t) =>
      if !A.InPhase(y.lock, t, A.Inside) || t >= |y.tasks| || y.tasks[t] != Done then y
      else y.(lock := A.Next(y.lock, A.Leave(t)), served := y.served + 1)
  }

  function Run(events: seq<Event>): System {
    if events == [] then Initial() else Next(Run(events[..|events| - 1]), events[|events| - 1])
  }

  /** The calls that have left have taken effect one after the other; the one inside is about to. */
  predicate Serial(y: System) {
    && A.Inv(y.lock) && |y.lock.tickets| == |y.tasks| == |y.calls| && y.served <= |y.calls|
    && (forall t | 0 <= t < |y.tasks| ::
          && (y.lock.tickets[t].phase == A.Released ==> t < y.served)
          && (y.lock.tickets[t].phase == A.Inside ==>
                t == y.served && Outcome(y.stores, y.tasks[t]) == AdapterRun(Empty(), y.calls[..t + 1]))
          && (y.lock.tickets[t].phase == A.Waiting ==> t >= y.served && y.tasks[t] == Pending(y.calls[t])))
    && (Idle(y) ==> y.stores == AdapterRun(Empty(), y.calls[..y.served]))
  }

  predicate Idle(y: System) { forall t | 0 <= t < |y.lock.tickets| :: y.lock.tickets[t].phase != A.Inside }

  lemma {:induction false} AdapterRunLast(s: Stores, calls: seq<AdapterCall>, call: AdapterCall)
    ensures AdapterRun(s, calls + [call]) == AdapterNext(AdapterRun(s, calls), call)
    decreases |calls|
  {
    if calls == [] {
      assert [call][1..] == [] && [] + [call] == [call];
    } else {
      assert (calls + [call])[0] == calls[0] && (calls + [call])[1..] == calls[1..] + [call];
      AdapterRunLast(AdapterNext(s, calls[0]), calls[1..], call);
    }
  }

  lemma ArriveKeeps(y: System, call: AdapterCall)
    requires Serial(y)
    ensures Serial(Next(y, Arrive(call)))
  {
    A.NextKeeps(y.lock, A.Enqueue);
    var z := Next(y, Arrive(call));
    assert forall n | 0 <= n <= |y.calls| :: z.calls[..n] == y.calls[..n];
    assert Idle(z) <==> Idle(y) by {
      assert forall t | 0 <= t < |y.lock.tickets| :: z.lock.tickets[t] == y.lock.tickets[t];
    }
  }

  lemma ResumeKeeps(y: System, t: nat)
    requires Serial(y)
    ensures Serial(Next(y, Resume(t)))
  {
    A.NextKeeps(y.lock, A.Resume(t));
    if A.Enabled(y.lock, t) {
      EnabledIsNext(y, t);
      assert y.calls[..t + 1] == y.calls[..t] + [y.calls[t]];
      AdapterRunLast(Empty(), y.calls[..t], y.calls[t]);
    }
  }

  /** Only the oldest call that has not left can go in, and only when nobody is inside. */
  lemma EnabledIsNext(y: System, t: nat)
    requires Serial(y) && A.Enabled(y.lock, t)
    ensures t == y.served && Idle(y)
  {
    assert t > 0 ==> y.lock.tickets[t - 1].phase == A.Released;
    assert t >= y.served;
    forall r | 0 <= r < |y.tasks| ensures y.lock.tickets[r].phase != A.Inside {
      assert y.lock.tickets[r].phase == A.Inside ==> r == y.served;
      assert t == y.served;
    }
  }

  lemma WorkKeeps(y: System, t: nat)
    requires Serial(y)
    ensures Serial(Next(y, Work(t)))
  {
    A.NextKeeps(y.lock, A.Act(t, ()));
    if A.InPhase(y.lock, t, A.Inside) { AdvanceKeepsOutcome(y.stores, y.tasks[t]); }
  }

  lemma LeaveKeeps(y: System, t: nat)
    requires Serial(y)
    ensures Serial(Next(y, Leave(t)))
  {
    if A.InPhase(y.lock, t, A.Inside) && y.tasks[t] == Done { LeaveDone(y, t); }
  }

  lemma LeaveDone(y: System, t: nat)
    requires Serial(y) && A.InPhase(y.lock, t, A.Inside) && y.tasks[t] == Done
    ensures Serial(Next(y, Leave(t)))
  {
    A.NextKeeps(y.lock, A.Leave(t));
    assert t == y.served && y.stores == AdapterRun(Empty(), y.calls[..t + 1]);
    var z := Next(y, Leave(t));
    assert z.lock.tickets[t].phase == A.Released;
    assert forall r | 0 <= r < |y.tasks| && r != t :: z.lock.tickets[r] == y.lock.tickets[r];
  }

  lemma {:induction false} RunSerial(events: seq<Event>)
    ensures Serial(Run(events))
  {
    if events != [] {
      var n := |events| - 1;
      RunSerial(events[..n]);
      match events[n] {
        case Arrive(call) => ArriveKeeps(Run(events[..n]), call);
        case Resume(t) => ResumeKeeps(Run(events[..n]), t);
        case Work(t) => WorkKeeps(Run(events[..n]), t);
        case Leave(t) => LeaveKeeps(Run(events[..n]), t);
      }
    }
  }

  /**
    However the steps of any number of calls are interleaved, whenever nobody is inside the mutex
    the stores are what the calls that have left would have made of them one after the other, in the
    order in which they arrived.
   */
  lemma CallsAreAtomic(events: seq<Event>)
    requires Idle(Run(events))
    ensures var y := Run(events);
            && y.served <= |y.calls| && y.stores == AdapterRun(Empty(), y.calls[..y.served])
            && forall t | 0 <= t < |y.lock.tickets| :: y.lock.tickets[t].phase == A.Released <==> t < y.served
  {
    RunSerial(events);
  }

  /** So the two stores agree after every schedule of the locked adapters, whoever waits or has thrown. */
  lemma NeverDivergeInAnySchedule(events: seq<Event>, k: Key)
    requires Idle(Run(events))
    requires forall i | 0 <= i < |Run(events).calls| :: LineageAnswer(Run(events).calls[i])
    ensures var s := Run(events).stores;
            && Lookup(s.regression.ownerships, k) == (if k in s.entries then s.entries[k].entry.ownership else None)
            && (k in s.regression.ownerships ==>
                  (Gone(s.entries[k].entry) <==> OwningVersion(s.regression.ownerships[k]) in s.regression.revocations))
  {
    var y := Run(events);
    CallsAreAtomic(events);
    NeverDiverge(y.calls[..y.served], k);
  }

  // ---------------------------------------------------------------- nobody is stuck

  /** The next step of the oldest call that has not left: to go in, to work, or to leave. */
  function NextOwn(y: System): (e: Event)
    ensures !e.Arrive?
  {
    if A.InPhase(y.lock, y.served, A.Waiting) then Resume(y.served)
    else if y.served < |y.tasks| && y.tasks[y.served] != Done then Work(y.served)
    else Leave(y.served)
  }

  /** How far the oldest call still has to go. */
  function Ahead(y: System): (nat, nat, nat, nat) {
    if y.served < |y.calls| && y.served < |y.tasks| then
      (|y.calls| - y.served, if A.InPhase(y.lock, y.served, A.Waiting) then 1 else 0,
       Stage(y.tasks[y.served]), Left(y.tasks[y.served]))
    else (0, 0, 0, 0)
  }

  predicate Nearer(a: (nat, nat, nat, nat), b: (nat, nat, nat, nat)) {
    a.0 < b.0 || (a.0 == b.0 && (a.1 < b.1 || (a.1 == b.1 && (a.2 < b.2 || (a.2 == b.2 && a.3 < b.3)))))
  }

  lemma OldestEnters(y: System)
    requires Serial(y) && y.served < |y.calls| && y.lock.tickets[y.served].phase == A.Waiting
    ensures var z := Next(y, Resume(y.served)); Serial(z) && z.calls == y.calls && Nearer(Ahead(z), Ahead(y))
  {
    OldestMayEnter(y);
    ResumeKeeps(y, y.served);
  }

  lemma OldestWorks(y: System)
    requires Serial(y) && y.served < |y.calls|
    requires y.lock.tickets[y.served].phase == A.Inside && y.tasks[y.served] != Done
    ensures var z := Next(y, Work(y.served)); Serial(z) && z.calls == y.calls && Nearer(Ahead(z), Ahead(y))
  {
    WorkKeeps(y, y.served);
    AdvanceEnds(y.stores, y.tasks[y.served]);
  }

  lemma OldestLeaves(y: System)
    requires Serial(y) && y.served < |y.calls|
    requires y.lock.tickets[y.served].phase == A.Inside && y.tasks[y.served] == Done
    ensures var z := Next(y, Leave(y.served)); Serial(z) && z.calls == y.calls && Nearer(Ahead(z), Ahead(y))
  {
    LeaveKeeps(y, y.served);
  }

  lemma OldestMoves(y: System)
    requires Serial(y) && y.served < |y.calls|
    ensures var z := Next(y, NextOwn(y)); Serial(z) && z.calls == y.calls && Nearer(Ahead(z), Ahead(y))
  {
    assert y.lock.tickets[y.served].phase != A.Released;
    if y.lock.tickets[y.served].phase == A.Waiting { OldestEnters(y); }
    else if y.tasks[y.served] != Done { OldestWorks(y); }
    else { OldestLeaves(y); }
  }

  lemma OldestMayEnter(y: System)
    requires Serial(y) && y.served < |y.calls| && y.lock.tickets[y.served].phase == A.Waiting
    ensures A.Enabled(y.lock, y.served)
  {
    var t := y.served;
    if t > 0 {
      var phase := y.lock.tickets[t - 1].phase;
      assert phase != A.Inside && phase != A.Waiting;
    }
  }

  function AheadAfter(events: seq<Event>): (nat, nat, nat, nat) { Ahead(Run(events)) }

  lemma {:induction false} Serve(events: seq<Event>, far: (nat, nat, nat, nat)) returns (more: seq<Event>)
    requires far == AheadAfter(events)
    ensures Run(events + more).calls == Run(events).calls
    ensures Run(events + more).served == |Run(events).calls|
    ensures NoArrival(more)
    decreases far.0, far.1, far.2, far.3
  {
    if AllServed(events) {
      more := [];
      assert events + more == events;
    } else {
      var e := Approach(events);
      var rest := Serve(events + [e], AheadAfter(events + [e]));
      more := [e] + rest;
      ServedFirst(events, e, rest);
    }
  }

  predicate NoArrival(events: seq<Event>) { forall i | 0 <= i < |events| :: !events[i].Arrive? }

  lemma ServedFirst(events: seq<Event>, e: Event, rest: seq<Event>)
    ensures events + ([e] + rest) == events + [e] + rest
    ensures !e.Arrive? && NoArrival(rest) ==> NoArrival([e] + rest)
  {
  }

  predicate AllServed(events: seq<Event>) { Run(events).served == |Run(events).calls| }

  lemma Approach(events: seq<Event>) returns (e: Event)
    requires !AllServed(events)
    ensures !e.Arrive? && Run(events + [e]).calls == Run(events).calls
    ensures Nearer(AheadAfter(events + [e]), AheadAfter(events))
  {
    RunSerial(events);
    e := NextOwn(Run(events));
    OldestMoves(Run(events));
    RunMore(events, e);
  }

  lemma RunMore(events: seq<Event>, e: Event)
    ensures Run(events + [e]) == Next(Run(events), e)
  {
    assert (events + [e])[..|events|] == events;
  }

  /**
    Every schedule can be continued, without new calls, until all calls have left, whether they
    return or throw; the stores are then those of all calls in their order of arrival.
   */
  lemma EveryCallIsServed(events: seq<Event>)
    ensures exists more: seq<Event> ::
              && NoArrival(more)
              && Run(events + more).served == |Run(events).calls|
              && Run(events + more).stores == AdapterRun(Empty(), Run(events).calls)
  {
    var more := Serve(events, AheadAfter(events));
    var y := Run(events + more);
    RunSerial(events + more);
    forall t | 0 <= t < |y.lock.tickets| ensures y.lock.tickets[t].phase != A.Inside {
      assert y.lock.tickets[t].phase == A.Inside ==> t == y.served;
    }
    assert Idle(y);
    assert y.calls[..y.served] == y.calls;
  }
}
