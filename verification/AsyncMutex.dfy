/**
  The promise-chain mutex of the memory adapters.  Each call of `run` reads the tail promise,
  replaces it by one of its own, waits for the one it read, runs its operation and resolves its own,
  whether the operation returned or threw.

  Promises are numbered in the order they are made; promise 0 is the one resolved from the start.
  Call `t` owns promise `t + 1`.  An operation is any sequence of actions on the shared stores.
 */
module AsyncMutex {
  import opened Prelude

  datatype Phase = Waiting | Inside | Released

  datatype Ticket = Ticket(previous: nat, phase: Phase)

  /** One action that the operation of a call performed. */
  datatype Action<A> = Action(ticket: nat, effect: A)

  datatype Lock<A> = Lock(tail: nat, resolved: set<nat>, tickets: seq<Ticket>, log: seq<Action<A>>)

  datatype Step<A> = Enqueue | Resume(t: nat) | Act(t: nat, effect: A) | Leave(t: nat)

  function Fresh<A>(): Lock<A> { Lock(0, {0}, [], []) }

  predicate InPhase<A>(l: Lock<A>, t: nat, phase: Phase) { t < |l.tickets| && l.tickets[t].phase == phase }

  /** A call may go on once the promise it waits for is resolved. */
  predicate Enabled<A>(l: Lock<A>, t: nat) { InPhase(l, t, Waiting) && l.tickets[t].previous in l.resolved }

  function Move<A>(l: Lock<A>, t: nat, phase: Phase): Lock<A>
    requires t < |l.tickets|
  {
    l.(tickets := l.tickets[t := l.tickets[t].(phase := phase)])
  }

  /** What a step that is not possible leaves alone, and what a possible one does. */
  function Next<A>(l: Lock<A>, step: Step<A>): Lock<A> {
    match step
    case Enqueue => l.(tail := |l.tickets| + 1, tickets := l.tickets + [Ticket(l.tail, Waiting)])
    case Resume(t) => if Enabled(l, t) then Move(l, t, Inside) else l
    case Act(t, effect) => if InPhase(l, t, Inside) then l.(log := l.log + [Action(t, effect)]) else l
    case Leave(t) => if InPhase(l, t, Inside) then Move(l, t, Released).(resolved := l.resolved + {t + 1}) else l
  }

  function Run<A>(l: Lock<A>, schedule: seq<Step<A>>): Lock<A>
    decreases |schedule|
  {
    if schedule == [] then l else Run(Next(l, schedule[0]), schedule[1..])
  }

  class Mutex<A> {
    var tail: nat
    var resolved: set<nat>
    var tickets: seq<Ticket>
    var log: seq<Action<A>>

    ghost function State(): Lock<A> reads this { Lock(tail, resolved, tickets, log) }

    constructor ()
      ensures State() == Fresh()
    {
      tail, resolved, tickets, log := 0, {0}, [], [];
    }

    /** The synchronous part of `run`: it takes its place in the chain before anything is awaited. */
    method Enter() returns (t: nat)
      modifies this
      ensures t == |old(tickets)| && State() == Next(old(State()), Enqueue)
    {
      t := |tickets|;
      var previous := tail;
      tail := t + 1;
      tickets := tickets + [Ticket(previous, Waiting)];
    }

    method Proceed(t: nat) returns (inside: bool)
      modifies this
      ensures State() == Next(old(State()), Resume(t)) && inside == Enabled(old(State()), t)
    {
      inside := t < |tickets| && tickets[t].phase == Waiting && tickets[t].previous in resolved;
      if inside { tickets := tickets[t := tickets[t].(phase := Inside)]; }
    }

    method Perform(t: nat, effect: A)
      modifies this
      ensures State() == Next(old(State()), Act(t, effect))
    {
      if t < |tickets| && tickets[t].phase == Inside { log := log + [Action(t, effect)]; }
    }

    /** The `finally` clause: reached by a return and by a throw alike. */
    method Release(t: nat)
      modifies this
      ensures State() == Next(old(State()), Leave(t))
    {
      if t < |tickets| && tickets[t].phase == Inside {
        tickets := tickets[t := tickets[t].(phase := Released)];
        resolved := resolved + {t + 1};
      }
    }
  }

  // ---------------------------------------------------------------- what every run keeps

  /** Each call waits for the one before it, and exactly the released calls have resolved their promise. */
  predicate Chained<A>(l: Lock<A>) {
    && l.tail == |l.tickets|
    && (forall t | 0 <= t < |l.tickets| :: l.tickets[t].previous == t)
    && (forall p | p in l.resolved :: p <= |l.tickets|)
    && (forall p | 0 <= p <= |l.tickets| :: p in l.resolved <==> p == 0 || l.tickets[p - 1].phase == Released)
  }

  /** Whoever is past waiting has only released calls before it. */
  predicate InOrder<A>(l: Lock<A>) {
    forall s, t | 0 <= s < t < |l.tickets| && l.tickets[t].phase != Waiting :: l.tickets[s].phase == Released
  }

  predicate Logged<A>(l: Lock<A>) {
    && (forall i | 0 <= i < |l.log| :: l.log[i].ticket < |l.tickets| && l.tickets[l.log[i].ticket].phase != Waiting)
    && (forall i, j | 0 <= i < j < |l.log| :: l.log[i].ticket <= l.log[j].ticket)
  }

  predicate Inv<A>(l: Lock<A>) { Chained(l) && InOrder(l) && Logged(l) }

  lemma NextKeeps<A>(l: Lock<A>, step: Step<A>)
    requires Inv(l)
    ensures Inv(Next(l, step))
  {
    match step {
      case Enqueue =>
      case Resume(t) => if Enabled(l, t) { ResumeKeeps(l, t); }
      case Act(t, effect) =>
      case Leave(t) =>
    }
  }

  lemma ResumeKeeps<A>(l: Lock<A>, t: nat)
    requires Inv(l) && Enabled(l, t)
    ensures Inv(Move(l, t, Inside))
  {
    assert t > 0 ==> l.tickets[t - 1].phase == Released;
    forall s | 0 <= s < t ensures l.tickets[s].phase == Released {}
  }

  lemma {:induction false} RunKeeps<A>(l: Lock<A>, schedule: seq<Step<A>>)
    requires Inv(l)
    ensures Inv(Run(l, schedule))
    decreases |schedule|
  {
    if schedule != [] {
      NextKeeps(l, schedule[0]);
      RunKeeps(Next(l, schedule[0]), schedule[1..]);
    }
  }

  /**
    In every run, whatever the operations do: at most one is inside; released calls are a prefix of
    the calls made; and a call may enter exactly when it is the oldest one waiting and no operation
    is inside.
   */
  lemma MutualExclusion<A>(schedule: seq<Step<A>>, s: nat, t: nat)
    ensures var l := Run(Fresh<A>(), schedule);
            && (InPhase(l, s, Inside) && InPhase(l, t, Inside) ==> s == t)
            && (InPhase(l, t, Released) && s <= t ==> InPhase(l, s, Released))
            && (Enabled(l, t) <==>
                  InPhase(l, t, Waiting) && (forall r | 0 <= r < t :: !InPhase(l, r, Waiting))
                  && forall r | 0 <= r < |l.tickets| :: !InPhase(l, r, Inside))
  {
    var l := Run(Fresh<A>(), schedule);
    RunKeeps(Fresh<A>(), schedule);
    if InPhase(l, t, Waiting) && (forall r | 0 <= r < t :: !InPhase(l, r, Waiting)) && (forall r | 0 <= r < |l.tickets| :: !InPhase(l, r, Inside)) {
      assert t > 0 ==> !InPhase(l, t - 1, Waiting) && !InPhase(l, t - 1, Inside);
    }
    if Enabled(l, t) {
      assert t > 0 ==> l.tickets[t - 1].phase == Released;
      forall r | 0 <= r < t ensures InPhase(l, r, Released) {}
    }
  }

  // ---------------------------------------------------------------- progress

  predicate ReleasedUpTo<A>(l: Lock<A>,
      t: nat) { t <= |l.tickets| && forall s | 0 <= s < t :: l.tickets[s].phase == Released }

  /** Let every call from `t` on go in and come out, oldest first. */
  function Drain<A>(t: nat, n: nat): seq<Step<A>>
    decreases n - t
  {
    if t >= n then [] else [Resume(t), Leave(t)] + Drain(t + 1, n)
  }

  lemma DrainOne<A>(l: Lock<A>, t: nat)
    requires Inv(l) && ReleasedUpTo(l, t) && t < |l.tickets|
    ensures var m := Next(Next(l, Resume(t)), Leave(t));
            Inv(m) && |m.tickets| == |l.tickets| && ReleasedUpTo(m, t + 1)
  {
    NextKeeps(l, Resume(t));
    NextKeeps(Next(l, Resume(t)), Leave(t));
    assert t > 0 ==> l.tickets[t - 1].phase == Released;
  }

  /** No caller is stuck: from every reachable state two steps per call release them all, in call order. */
  lemma {:induction false} DrainReleasesAll<A>(l: Lock<A>, t: nat)
    requires Inv(l) && ReleasedUpTo(l, t)
    ensures var m := Run(l, Drain(t, |l.tickets|)); |m.tickets| == |l.tickets| && ReleasedUpTo(m, |l.tickets|)
    decreases |l.tickets| - t
  {
    var n := |l.tickets|;
    if t < n {
      DrainOne(l, t);
      var m := Next(Next(l, Resume(t)), Leave(t));
      DrainReleasesAll(m, t + 1);
      var s := [Resume(t), Leave(t)] + Drain<A>(t + 1, n);
      assert s[1..] == [Leave(t)] + Drain<A>(t + 1, n) && s[1..][1..] == Drain<A>(t + 1, n);
      assert Run(l, s) == Run(Next(l, Resume(t)), s[1..]) == Run(m, Drain(t + 1, n));
    }
  }

  /**
    A locked operation must not wait for another call of `run`: as long as call `t` stays inside, no
    schedule lets a later call in.
   */
  lemma {:induction false} LaterCallsWait<A>(l: Lock<A>, t: nat, u: nat, schedule: seq<Step<A>>)
    requires Inv(l) && InPhase(l, t, Inside) && t < u && (u < |l.tickets| ==> l.tickets[u].phase == Waiting)
    requires forall i | 0 <= i < |schedule| :: schedule[i] != Leave(t)
    ensures var m := Run(l, schedule); InPhase(m, t, Inside) && (u < |m.tickets| ==> m.tickets[u].phase == Waiting)
    decreases |schedule|
  {
    if schedule != [] {
      var m := Next(l, schedule[0]);
      NextKeeps(l, schedule[0]);
      assert InPhase(m, t, Inside);
      assert u < |m.tickets| ==> m.tickets[u].phase == Waiting;
      forall i | 0 <= i < |schedule[1..]| ensures schedule[1..][i] != Leave(t) { assert schedule[1..][i] == schedule[i + 1]; }
      LaterCallsWait(m, t, u, schedule[1..]);
    }
  }

  // ---------------------------------------------------------------- serial equivalence

  /** What call `t` did, in order. */
  function Of<A>(log: seq<Action<A>>, t: nat): seq<Action<A>> {
    if log == [] then []
    else Of(log[..|log| - 1], t) + if log[|log| - 1].ticket == t then [log[|log| - 1]] else []
  }

  /** The first `n` calls one after the other, each doing what it did. */
  function Serial<A>(log: seq<Action<A>>, n: nat): seq<Action<A>> {
    if n == 0 then [] else Serial(log, n - 1) + Of(log, n - 1)
  }

  predicate Sorted<A>(log: seq<Action<A>>) { forall i, j | 0 <= i < j < |log| :: log[i].ticket <= log[j].ticket }

  lemma {:induction false} NoneOf<A>(log: seq<Action<A>>, t: nat)
    requires forall i | 0 <= i < |log| :: log[i].ticket != t
    ensures Of(log, t) == []
  {
    if log != [] { NoneOf(log[..|log| - 1], t); }
  }

  lemma {:induction false} SerialOfSmaller<A>(log: seq<Action<A>>, x: Action<A>, n: nat)
    requires n <= x.ticket
    ensures Serial(log + [x], n) == Serial(log, n)
  {
    if n > 0 {
      SerialOfSmaller(log, x, n - 1);
      assert (log + [x])[..|log|] == log;
    }
  }

  lemma {:induction false} SerialAppends<A>(log: seq<Action<A>>, x: Action<A>, n: nat)
    requires x.ticket < n && forall i | 0 <= i < |log| :: log[i].ticket <= x.ticket
    ensures Serial(log + [x], n) == Serial(log, n) + [x]
  {
    assert (log + [x])[..|log|] == log;
    if n - 1 == x.ticket {
      SerialOfSmaller(log, x, n - 1);
    } else {
      SerialAppends(log, x, n - 1);
      NoneOf(log, n - 1);
      assert Of(log + [x], n - 1) == [];
    }
  }

  lemma {:induction false} SortedIsSerial<A>(log: seq<Action<A>>, n: nat)
    requires Sorted(log) && forall i | 0 <= i < |log| :: log[i].ticket < n
    ensures Serial(log, n) == log
  {
    if log == [] {
      EmptySerial<A>(n);
    } else {
      var rest, x := log[..|log| - 1], log[|log| - 1];
      assert log == rest + [x];
      SortedIsSerial(rest, n);
      SerialAppends(rest, x, n);
    }
  }

  lemma {:induction false} EmptySerial<A>(n: nat)
    ensures Serial<A>([], n) == []
  {
    if n > 0 { EmptySerial<A>(n - 1); }
  }

  /**
    Every run is serial: what the operations did to the shared stores, in the order they did it, is
    what the calls would have done one after the other in the order they were made.
   */
  lemma Serializable<A>(schedule: seq<Step<A>>)
    ensures var l := Run(Fresh<A>(), schedule); l.log == Serial(l.log, |l.tickets|)
  {
    var l := Run(Fresh<A>(), schedule);
    RunKeeps(Fresh<A>(), schedule);
    SortedIsSerial(l.log, |l.tickets|);
  }
}
