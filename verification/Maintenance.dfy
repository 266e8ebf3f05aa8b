/**
  The passes that run over many artifacts: reconciliation of interrupted uploads, retention and
  abandoned-reservation cleanup, and the retry of pending purges.  Each lists its candidates once
  and then works through them while everything else goes on.
 */
module Maintenance {
  import opened Prelude
  import J = Json
  import opened ArtifactContract
  import opened Envelope
  import opened Catalog
  import opened Protocol
  import opened ProtocolSafety
  import opened Lifecycle
  import opened Stores
  import opened UseCases
  import opened ArtifactService

  const MIN_ABANDONED_AGE: Time := 3600000

  datatype Gaps = Gaps(before: seq<Step>, between: seq<Step>, after: seq<Step>, last: seq<Step>)

  datatype CandidateOutcome = Activated | MissingObject | Failed

  predicate InState(w: World, k: Key, s: State) { k in w.entries && w.entries[k].entry.metadata.state == s }

  /** A candidate of a reconciliation pass, at any later moment of the pass. */
  predicate Interrupted(c: Codec, w: World, e: CatalogEntry, at: Time) {
    Snapshot(w, e) && e.metadata.state == State.Reserved && c.valid(e.metadata) && e.metadata.createdAt <= at
  }

  lemma InterruptedStable(c: Codec, w: World, v: World, e: CatalogEntry, at: Time)
    requires (Snapshot(w, e) && e.metadata.state == State.Reserved) && Evolves(w, v)
    ensures Interrupted(c, w, e, at) ==> Interrupted(c, v, e, at)
    ensures e.objectKey in w.objects ==> Lookup(v.objects, e.objectKey) == Lookup(w.objects, e.objectKey) || IsGone(v, KeyOf(e))
  {
    SnapshotStable(w, v, e);
  }

  /** The progress of a pass: what is still to do, what has been settled, what was reported as failed. */
  predicate AllInterrupted(c: Codec, w: World, es: seq<CatalogEntry>, at: Time) {
    forall i | 0 <= i < |es| :: Interrupted(c, w, es[i], at)
  }

  lemma AllInterruptedStable(c: Codec, w: World, v: World, es: seq<CatalogEntry>, at: Time)
    requires Evolves(w, v) && AllInterrupted(c, w, es, at)
    ensures AllInterrupted(c, v, es, at)
  {
    forall i | 0 <= i < |es| ensures Interrupted(c, v, es[i], at) { InterruptedStable(c, w, v, es[i], at); }
  }

  /**
    What an outcome says about the artifact from the start of the pass on: activated ones are not
    reserved any more, a missing object was not there at the start unless the artifact is gone, and
    only a tombstone makes a candidate fail.
   */
  predicate OutcomeMeans(start: World, w: World, e: CatalogEntry, outcome: CandidateOutcome) {
    match outcome
    case Activated => !InState(w, KeyOf(e), State.Reserved)
    case MissingObject => e.objectKey !in start.objects || IsGone(w, KeyOf(e))
    case Failed => IsGone(w, KeyOf(e))
  }

  lemma OutcomeStays(start: World, w: World, v: World, e: CatalogEntry, outcome: CandidateOutcome)
    requires Evolves(w, v) && Snapshot(w, e) && OutcomeMeans(start, w, e, outcome)
    ensures OutcomeMeans(start, v, e, outcome)
  {
    assert EntryEvolves(w, v, KeyOf(e));
  }

  lemma OutcomeSince(start: World, w: World, v: World, e: CatalogEntry, outcome: CandidateOutcome)
    requires Evolves(start, w) && Evolves(w, v) && Snapshot(start, e) && OutcomeMeans(w, v, e, outcome)
    ensures OutcomeMeans(start, v, e, outcome)
  {
    SnapshotStable(start, w, e);
    SnapshotStable(w, v, e);
  }

  predicate Progress(c: Codec, start: World, w: World, es: seq<CatalogEntry>, at: Time, outcomes: seq<CandidateOutcome>) {
    && |outcomes| <= |es|
    && Evolves(start, w)
    && AllInterrupted(c, start, es, at) && AllInterrupted(c, w, es, at)
    && forall i | 0 <= i < |outcomes| :: OutcomeMeans(start, w, es[i], outcomes[i])
  }

  lemma NextCandidate(c: Codec, start: World, w: World, v: World, es: seq<CatalogEntry>, at: Time,
      outcomes: seq<CandidateOutcome>, outcome: CandidateOutcome)
    requires |outcomes| < |es| && Progress(c, start, w, es, at, outcomes) && Evolves(w, v)
    requires OutcomeMeans(w, v, es[|outcomes|], outcome)
    ensures Progress(c, start, v, es, at, outcomes + [outcome])
  {
    forall i | 0 <= i < |es| ensures Snapshot(w, es[i]) && Snapshot(start, es[i]) {
      assert Interrupted(c, w, es[i], at) && Interrupted(c, start, es[i], at);
    }
    AllInterruptedStable(c, w, v, es, at);
    forall i | 0 <= i < |outcomes| ensures OutcomeMeans(start, v, es[i], outcomes[i]) {
      OutcomeStays(start, w, v, es[i], outcomes[i]);
    }
    OutcomeSince(start, w, v, es[|outcomes|], outcome);
    EvolvesTransitive(start, w, v);
  }

  function Count(outcomes: seq<CandidateOutcome>, o: CandidateOutcome): nat {
    if outcomes == [] then 0
    else Count(outcomes[..|outcomes| - 1], o) + if outcomes[|outcomes| - 1] == o then 1 else 0
  }

  function FailedIds(es: seq<CatalogEntry>, outcomes: seq<CandidateOutcome>): seq<Id>
    requires |outcomes| <= |es|
  {
    if outcomes == [] then []
    else
      var n := |outcomes| - 1;
      FailedIds(es, outcomes[..n]) + if outcomes[n] == Failed then [es[n].metadata.contentReference.artifactId] else []
  }

  /** The three accounts of a pass: every candidate so far is in the one of its outcome. */
  predicate Tallies(activated: nat, missing: nat, failed: seq<Id>, es: seq<CatalogEntry>, outcomes: seq<CandidateOutcome>) {
    && |outcomes| <= |es|
    && activated == Count(outcomes, Activated) && missing == Count(outcomes, MissingObject)
    && failed == FailedIds(es, outcomes)
    && activated + missing + |failed| == |outcomes|
  }

  lemma NextTally(activated: nat, missing: nat, failed: seq<Id>, es: seq<CatalogEntry>,
      outcomes: seq<CandidateOutcome>, o: CandidateOutcome)
    requires Tallies(activated, missing, failed, es, outcomes) && |outcomes| < |es|
    ensures var id := es[|outcomes|].metadata.contentReference.artifactId;
            match o
            case Activated => Tallies(activated + 1, missing, failed, es, outcomes + [o])
            case MissingObject => Tallies(activated, missing + 1, failed, es, outcomes + [o])
            case Failed => Tallies(activated, missing, failed + [id], es, outcomes + [o])
  {
    assert (outcomes + [o])[..|outcomes|] == outcomes;
    assert failed + [] == failed;
  }

  /** A report that counts every candidate under its outcome. */
  predicate Reports(r: Reconciled, es: seq<CatalogEntry>, outcomes: seq<CandidateOutcome>) {
    |outcomes| == |es| == r.inspected && Tallies(r.activated, r.missing, r.failed, es, outcomes)
  }

  /** Up to `limit` different reservations of the scope that are no younger than the threshold, all of them if there are fewer. */
  predicate ListsAbandoned(w: World, scope: Scope, threshold: Time, limit: nat, es: seq<CatalogEntry>) {
    && Listing(w, scope, limit, es)
    && (forall e | e in es :: e.metadata.state == State.Reserved && e.metadata.createdAt <= threshold)
    && (|es| < limit ==>
          forall k | k in w.entries && w.entries[k].entry.metadata.scope == scope && InState(w, k, State.Reserved)
                     && w.entries[k].entry.metadata.createdAt <= threshold :: w.entries[k].entry in es)
  }

  /** The same for the available artifacts whose expiry has come. */
  ghost predicate ListsExpired(w: World, scope: Scope, at: Time, limit: nat, es: seq<CatalogEntry>) {
    && Listing(w, scope, limit, es)
    && (forall e | e in es :: e.metadata.state == Available && ExpiryBy(e, at))
    && (|es| < limit ==>
          forall k | k in w.entries && w.entries[k].entry.metadata.scope == scope && InState(w, k, Available)
                     && ExpiryBy(w.entries[k].entry, at) :: w.entries[k].entry in es)
  }

  ghost predicate ExpiryBy(e: CatalogEntry,
      at: Time) { exists x: Instant :: e.metadata.retention == Expire(x) && x.key <= at }

  predicate ListsTombstoned(w: World, scope: Scope, limit: nat, es: seq<CatalogEntry>) {
    && Listing(w, scope, limit, es)
    && (forall e | e in es :: e.metadata.state == Tombstoned)
    && (|es| < limit ==>
          forall k | k in w.entries && w.entries[k].entry.metadata.scope == scope && InState(w, k, Tombstoned) ::
            w.entries[k].entry in es)
  }

  predicate Listing(w: World, scope: Scope, limit: nat, es: seq<CatalogEntry>) {
    && |es| <= limit
    && (forall e | e in es :: KeyOf(e) in w.entries && w.entries[KeyOf(e)].entry == e && e.metadata.scope == scope)
    && (forall i, j | 0 <= i < j < |es| :: KeyOf(es[i]) != KeyOf(es[j]))
  }

  /** No upload whose object was stored when the pass began is left reserved. */
  lemma InterruptedAreRecovered(start: World, w: World, e: CatalogEntry, outcome: CandidateOutcome)
    requires OutcomeMeans(start, w, e, outcome) && e.objectKey in start.objects
    ensures !InState(w, KeyOf(e), State.Reserved)
  {
  }

  lemma PurgedForever(w: World, v: World, k: Key)
    requires Evolves(w, v) && IsPurged(w, k)
    ensures IsPurged(v, k)
  {
    assert EntryEvolves(w, v, k);
  }

  // ---------------------------------------------------------------- listing

  predicate Wanted(entries: Entries, k: Key, scope: Scope, wanted: CatalogEntry -> bool) {
    k in entries && wanted(entries[k].entry) && entries[k].entry.metadata.scope == scope
  }

  predicate Keyed(entries: Entries) { forall k | k in entries :: KeyOf(entries[k].entry) == k }

  lemma KeysAreKeys(c: Codec, w: World)
    requires StoresOk(c, w)
    ensures Keyed(w.entries)
  {
    forall k | k in w.entries ensures KeyOf(w.entries[k].entry) == k { assert EntryOk(c, w, k); }
  }

  /**
    The listing contract: up to `limit` different matching entries, all of them when there are
    fewer; which come first is left open.
   */
  method List(entries: Entries, scope: Scope, wanted: CatalogEntry -> bool, limit: nat) returns (r: seq<CatalogEntry>)
    requires Keyed(entries)
    ensures |r| <= limit
    ensures forall e | e in r :: Wanted(entries, KeyOf(e), scope, wanted) && entries[KeyOf(e)].entry == e
    ensures forall i, j | 0 <= i < j < |r| :: KeyOf(r[i]) != KeyOf(r[j])
    ensures |r| < limit ==> forall k | Wanted(entries, k, scope, wanted) :: entries[k].entry in r
  {
    r := [];
    var rest := set k | k in entries && Wanted(entries, k, scope, wanted);
    while rest != {} && |r| < limit
      invariant |r| <= limit
      invariant forall k | k in rest :: Wanted(entries, k, scope, wanted)
      invariant forall e | e in r :: Wanted(entries, KeyOf(e), scope, wanted) && entries[KeyOf(e)].entry == e && KeyOf(e) !in rest
      invariant forall i, j | 0 <= i < j < |r| :: KeyOf(r[i]) != KeyOf(r[j])
      invariant forall k | Wanted(entries, k, scope, wanted) :: k in rest || entries[k].entry in r
      decreases rest
    {
      var k :| k in rest;
      rest := rest - {k};
      r := r + [entries[k].entry];
    }
  }

  class Passes {
    const stores: Backend
    const artifacts: Artifacts

    constructor (artifacts: Artifacts)
      ensures this.artifacts == artifacts && stores == artifacts.stores
    {
      this.artifacts := artifacts;
      this.stores := artifacts.stores;
    }

    ghost predicate Ready() reads stores { artifacts.stores == stores && stores.Valid() }

    // -------------------------------------------------------------- reconciliation

    /** One candidate: get its object, decrypt it, activate the artifact with its receipt. */
    method ReconcileOne(e: CatalogEntry, at: Time, g: Gaps) returns (outcome: CandidateOutcome)
      requires Ready() && Interrupted(stores.codec, stores.world, e, at)
      modifies stores
      ensures Ready() && Evolves(old(stores.world), stores.world)
      ensures OutcomeMeans(old(stores.world), stores.world, e, outcome)
    {
      ghost var w := stores.world;
      stores.Await(g.before);
      ghost var w1 := stores.world;
      InterruptedStable(stores.codec, w, w1, e, at);
      var bytes := stores.Get(e.objectKey);
      if bytes.None? { return MissingObject; }
      StoredDecrypts(stores.codec, w1, e);
      var content := stores.codec.decrypt(e.metadata, e.plan, bytes.value);
      stores.Await(g.between);
      InterruptedStable(stores.codec, w1, stores.world, e, at);
      EvolvesTransitive(w, w1, stores.world);
      outcome := Failed;
      if content.Some? {
        var ok := ActivateWith(w, e, stores.codec.receipt(bytes.value), at);
        if ok { outcome := Activated; }
      }
    }

    /**
      ReconcileArtifactReservations.execute.  The report counts every listed candidate under the one
      outcome it had, and an outcome means what OutcomeMeans says of the artifact at the end.
     */
    method Reconcile(scope: Scope, abandonedBefore: Time, limit: nat, gaps: nat -> Gaps)
        returns (r: Result<Reconciled, CallError>, ghost candidates: seq<CatalogEntry>, ghost outcomes: seq<CandidateOutcome>)
      requires Ready()
      modifies stores
      ensures Ready()
      ensures r.Ok? <==> abandonedBefore <= old(stores.world).now - 3600000 && 1 <= limit <= 100
      ensures r.Ok? ==>
        && ListsAbandoned(old(stores.world), scope, abandonedBefore, limit, candidates)
        && Reports(r.value, candidates, outcomes)
        && forall i | 0 <= i < |outcomes| :: OutcomeMeans(old(stores.world), stores.world, candidates[i], outcomes[i])
    {
      ghost var start := stores.world;
      candidates, outcomes := [], [];
      var occurredAt := stores.world.now;
      if abandonedBefore > occurredAt - MIN_ABANDONED_AGE || limit < 1 || limit > 100 { return Err(CallRefused), candidates, outcomes; }
      KeysAreKeys(stores.codec, stores.world);
      var listed := List(stores.world.entries, scope, (e: CatalogEntry) => IsAbandoned(e, abandonedBefore), limit);
      candidates := listed;
      AbandonedListed(start, listed, scope, (e: CatalogEntry) => IsAbandoned(e, abandonedBefore), abandonedBefore, limit);
      ListedInterrupted(stores.codec, start, listed, scope, abandonedBefore, occurredAt);
      var report;
      report, outcomes := ReconcileAll(listed, scope, occurredAt, gaps);
      r := Ok(report);
    }

    method ReconcileAll(candidates: seq<CatalogEntry>, scope: Scope, at: Time, gaps: nat -> Gaps)
        returns (r: Reconciled, ghost outcomes: seq<CandidateOutcome>)
      requires Ready() && AllInterrupted(stores.codec, stores.world, candidates, at)
      modifies stores
      ensures Ready() && Reports(r, candidates, outcomes)
      ensures forall i | 0 <= i < |outcomes| :: OutcomeMeans(old(stores.world), stores.world, candidates[i], outcomes[i])
    {
      ghost var start := stores.world;
      ghost var c := stores.codec;
      EvolvesReflexive(start);
      outcomes := [];
      var activated, missing := 0, 0;
      var failed: seq<Id> := [];
      for i := 0 to |candidates|
        invariant Ready() && stores.codec == c && |outcomes| == i
        invariant Progress(c, start, stores.world, candidates, at, outcomes)
        invariant Tallies(activated, missing, failed, candidates, outcomes)
      {
        var outcome := ReconcileNext(start, candidates, at, i, gaps(i), outcomes);
        NextTally(activated, missing, failed, candidates, outcomes, outcome);
        outcomes := outcomes + [outcome];
        match outcome {
          case Activated => activated := activated + 1;
          case MissingObject => missing := missing + 1;
          case Failed => failed := failed + [candidates[i].metadata.contentReference.artifactId];
        }
      }
      r := Reconciled(activated, failed, |candidates|, missing);
    }

    method ReconcileNext(ghost start: World, es: seq<CatalogEntry>, at: Time, i: nat, g: Gaps,
        ghost outcomes: seq<CandidateOutcome>)
        returns (outcome: CandidateOutcome)
      requires Ready() && i == |outcomes| < |es| && Progress(stores.codec, start, stores.world, es, at, outcomes)
      modifies stores
      ensures Ready() && Progress(stores.codec, start, stores.world, es, at, outcomes + [outcome])
    {
      ghost var w := stores.world;
      assert Interrupted(stores.codec, w, es[i], at);
      outcome := ReconcileOne(es[i], at, g);
      NextCandidate(stores.codec, start, w, stores.world, es, at, outcomes, outcome);
    }

    method ActivateWith(ghost start: World, e: CatalogEntry, receipt: Receipt, at: Time) returns (ok: bool)
      requires Evolves(start, stores.world)
      requires Ready() && Snapshot(stores.world, e) && e.metadata.createdAt <= at
      requires IsGone(stores.world, KeyOf(e)) ||
               (e.objectKey in stores.world.objects && stores.codec.receipt(stores.world.objects[e.objectKey]) == receipt)
      modifies stores
      ensures Ready() && Evolves(start, stores.world)
      ensures !InState(stores.world, KeyOf(e), State.Reserved)
      ensures !ok ==> IsGone(stores.world, KeyOf(e))
    {
      ghost var w := stores.world;
      ActivateAnswer(stores.codec, w, e, receipt, at);
      ActivateKeeps(stores.codec, w, e, receipt, at);
      StoreStepKeeps(stores.codec, w, ActivateFor(w, e, receipt, at));
      EvolvesTransitive(start, w, ActivateFor(w, e, receipt, at));
      var r := stores.Activate(e.metadata.scope, e.metadata.contentReference.artifactId, receipt, at);
      ok := r.Ok?;
    }

    // -------------------------------------------------------------- cleanup

    /** One candidate of processTombstoneCandidates: tombstone it, then purge it. */
    method RetireOne(scope: Scope, e: CatalogEntry, t: Tombstone, purgeId: Id, g: Gaps) returns (created: bool,
        ok: bool, ghost met: World)
      requires Ready() && Retirable(stores.world, e, scope, t)
      modifies stores
      ensures Ready() && Evolves(old(stores.world), stores.world)
      ensures Evolves(old(stores.world), met) && Evolves(met, stores.world)
      ensures ok == Accepts(met, scope, t) && created == Creates(met, scope, t)
      ensures ok ==> IsPurged(stores.world, KeyOf(e))
      ensures !ok ==> !created && MovedOn(stores.world, KeyOf(e), e.metadata.state)
    {
      ghost var w := stores.world;
      stores.Await(g.before);
      ghost var w1 := stores.world;
      met := w1;
      SnapshotStable(w, w1, e);
      TombstoneAnswer(stores.codec, w1, scope, e, t);
      TombstoneKeeps(stores.codec, w1, scope, t);
      StoreStepKeeps(stores.codec, w1, w1.(entries := TombstoneEntry(w1.entries, scope, t).entries));
      var result := stores.Tombstone(scope, t);
      created, ok := false, false;
      if result.Ok? {
        created := result.value.0;
        ok := PurgeGone(w1, scope, e, purgeId, g);
      }
      EvolvesTransitive(w, w1, stores.world);
    }

    /** Once an artifact is tombstoned, nothing that others do makes its purge fail. */
    method PurgeGone(ghost start: World, scope: Scope, e: CatalogEntry, purgeId: Id, g: Gaps) returns (ok: bool)
      requires Ready() && Evolves(start, stores.world) && Snapshot(stores.world, e) && e.metadata.scope == scope
      requires IsGone(stores.world, KeyOf(e))
      modifies stores
      ensures Ready() && Evolves(start, stores.world)
      ensures ok && IsPurged(stores.world, KeyOf(e))
    {
      ghost var w := stores.world;
      stores.Await(g.between);
      ghost var w1 := stores.world;
      SnapshotStable(w, w1, e);
      PurgeCallRight(stores.codec, w1, scope, e.metadata.contentReference.artifactId, purgeId, g.after, g.last);
      var r := artifacts.Purge(scope, e.metadata.contentReference.artifactId, purgeId, g.after, g.last);
      EvolvesTransitive(start, w, w1);
      EvolvesTransitive(start, w1, stores.world);
      ok := r.Ok?;
    }

    /**
      The loop shared by retention and abandoned-reservation cleanup, after its listing.  With `met`
      the stores as each candidate's tombstone found them, the report counts exactly the tombstones
      created there and names exactly the candidates refused there; all others end up purged.  One is
      refused only if it had already left the state it was listed in, or a fixture had come to own it.
     */
    method Retire(scope: Scope, es: seq<CatalogEntry>, t: Tombstone, purgeIds: nat -> Id, tombstoneIds: nat -> Id,
        gaps: nat -> Gaps, ghost s: State)
        returns (r: Maintained, ghost met: seq<World>)
      requires Ready() && RetireProgress(stores.world, es, 0, scope, s, [])
      requires (s == State.Reserved && t.trigger == Abandoned) || (s == Available && t.trigger == RetentionExpired)
      modifies stores
      ensures Ready() && Between(old(stores.world), met, stores.world)
      ensures r.purged + |r.failed| == r.inspected == |es| == |met|
      ensures r.tombstoned == CreatedCount(met, scope, StonesFor(es, t, tombstoneIds)) <= r.purged
      ensures r.failed == RefusedIds(met, scope, StonesFor(es, t, tombstoneIds))
      ensures RetireProgress(stores.world, es, |es|, scope, s, r.failed)
    {
      var failed: seq<Id> := [];
      var purged, tombstoned := 0, 0;
      met := [];
      ghost var start := stores.world;
      ghost var ts := StonesFor(es, t, tombstoneIds);
      RetireStarts(start, es, ts, scope, s);
      for i := 0 to |es|
        invariant Ready() && |met| == i && RetireLoop(start, stores.world, es, ts, scope, s, purged, tombstoned, failed, met)
      {
        ghost var m;
        var stone := StoneFor(es[i], t, tombstoneIds(i));
        purged, tombstoned, failed, m :=
          RetireStep(start, met, ts, scope, es, i, stone, purgeIds(i), gaps(i), purged, tombstoned, failed, s);
        met := met + [m];
      }
      RetireEnds(start, stores.world, es, ts, scope, s, purged, tombstoned, failed, met);
      r := Maintained(failed, |es|, purged, tombstoned);
    }

    method RetireStep(ghost start: World, ghost before: seq<World>, ghost ts: seq<Tombstone>, scope: Scope,
        es: seq<CatalogEntry>, i: nat, stone: Tombstone,
        purgeId: Id, g: Gaps, purged: nat, tombstoned: nat, failed: seq<Id>, ghost s: State)
        returns (purged': nat, tombstoned': nat, failed': seq<Id>, ghost met: World)
      requires Ready() && i == |before| < |es| == |ts| && stone == ts[i] && RetiresWith(es[i], stone)
      requires RetireLoop(start, stores.world, es, ts, scope, s, purged, tombstoned, failed, before)
      modifies stores
      ensures Ready() && RetireLoop(start, stores.world, es, ts, scope, s, purged', tombstoned', failed', before + [met])
    {
      ghost var w := stores.world;
      var created, ok;
      CandidateRetirable(start, w, es, ts, scope, s, purged, tombstoned, failed, before);
      created, ok, met := RetireOne(scope, es[i], stone, purgeId, g);
      CandidateRetired(start, w, stores.world, es, ts, scope, s, purged, tombstoned, failed, before, met);
      tombstoned' := if created then tombstoned + 1 else tombstoned;
      purged' := if ok then purged + 1 else purged;
      failed' := if ok then failed else failed + [stone.artifactId];
    }

    /** ProcessArtifactRetention.execute: retire what has expired. */
    method ProcessRetention(scope: Scope, limit: nat, t: Tombstone, purgeIds: nat -> Id, tombstoneIds: nat -> Id,
        gaps: nat -> Gaps)
        returns (r: Result<Maintained, CallError>, ghost listed: seq<CatalogEntry>)
      requires Ready() && t.occurredAt == stores.world.now && t.trigger == RetentionExpired
      modifies stores
      ensures Ready()
      ensures r.Ok? <==> 1 <= limit <= 100
      ensures r.Ok? ==> ListsExpired(old(stores.world), scope, t.occurredAt, limit, listed) && r.value.inspected == |listed|
      ensures r.Ok? ==>
        PassDone(old(stores.world), stores.world, scope, (e: CatalogEntry) => IsExpired(e, t.occurredAt), limit, Available, r.value)
    {
      if limit < 1 || limit > 100 { return Err(CallRefused), []; }
      ghost var start := stores.world;
      var wanted := (e: CatalogEntry) => IsExpired(e, t.occurredAt);
      KeysAreKeys(stores.codec, stores.world);
      var expired := List(stores.world.entries, scope, wanted, limit);
      listed := expired;
      ExpiredListed(start, expired, scope, wanted, t.occurredAt, limit);
      ListedProgress(start, expired, scope, wanted, Available);
      var report, met := Retire(scope, expired, t, purgeIds, tombstoneIds, gaps, Available);
      AllListedDone(start, stores.world, expired, scope, wanted, limit, Available, report);
      r := Ok(report);
    }

    /** ProcessAbandonedReservations.execute: retire reservations that are at least an hour old. */
    method ProcessAbandoned(scope: Scope, abandonedBefore: Time, limit: nat, t: Tombstone, purgeIds: nat -> Id,
        tombstoneIds: nat -> Id, gaps: nat -> Gaps)
        returns (r: Result<Maintained, CallError>, ghost listed: seq<CatalogEntry>)
      requires Ready() && t.occurredAt == stores.world.now && t.trigger == Abandoned
      modifies stores
      ensures Ready()
      ensures r.Ok? ==> ListsAbandoned(old(stores.world), scope, abandonedBefore, limit, listed) && r.value.inspected == |listed|
      ensures r.Ok? <==> abandonedBefore <= old(stores.world).now - 3600000 && 1 <= limit <= 100
      ensures r.Ok? ==>
        PassDone(old(stores.world), stores.world, scope, (e: CatalogEntry) => IsAbandoned(e, abandonedBefore), limit,
                 State.Reserved, r.value)
    {
      if abandonedBefore > stores.world.now - MIN_ABANDONED_AGE || limit < 1 || limit > 100 { return Err(CallRefused), []; }
      ghost var start := stores.world;
      var wanted := (e: CatalogEntry) => IsAbandoned(e, abandonedBefore);
      KeysAreKeys(stores.codec, stores.world);
      var abandoned := List(stores.world.entries, scope, wanted, limit);
      listed := abandoned;
      AbandonedListed(start, abandoned, scope, wanted, abandonedBefore, limit);
      ListedProgress(start, abandoned, scope, wanted, State.Reserved);
      var report, met := Retire(scope, abandoned, t, purgeIds, tombstoneIds, gaps, State.Reserved);
      AllListedDone(start, stores.world, abandoned, scope, wanted, limit, State.Reserved, report);
      r := Ok(report);
    }

    /** RetryArtifactPurges.execute: absent store failures, every listed artifact is purged and none is reported. */
    method RetryPurges(scope: Scope, limit: nat, purgeIds: nat -> Id, gaps: nat -> Gaps)
        returns (r: Result<Maintained, CallError>, ghost listed: seq<CatalogEntry>)
      requires Ready()
      modifies stores
      ensures Ready()
      ensures r.Ok? <==> 1 <= limit <= 100
      ensures r.Ok? ==> r.value.failed == [] && r.value.tombstoned == 0
      ensures r.Ok? ==> ListsTombstoned(old(stores.world), scope, limit, listed) && r.value.inspected == |listed|
      ensures r.Ok? ==>
        PassDone(old(stores.world), stores.world, scope, (e: CatalogEntry) => e.metadata.state == Tombstoned, limit,
                 Tombstoned, r.value)
    {
      if limit < 1 || limit > 100 { return Err(CallRefused), []; }
      ghost var start := stores.world;
      var wanted := (e: CatalogEntry) => e.metadata.state == Tombstoned;
      KeysAreKeys(stores.codec, stores.world);
      var pending := List(stores.world.entries, scope, wanted, limit);
      listed := pending;
      ListedProgress(start, pending, scope, wanted, Tombstoned);
      var failed: seq<Id> := [];
      var purged := 0;
      for i := 0 to |pending|
        invariant Ready() && RetireProgress(stores.world, pending, i, scope, Tombstoned, failed)
        invariant failed == [] && purged == i
      {
        var artifactId := pending[i].metadata.contentReference.artifactId;
        var ok := RetryNext(scope, pending, i, purgeIds(i), gaps(i));
        if ok { purged := purged + 1; } else { failed := failed + [artifactId]; }
      }
      AllListedDone(start, stores.world, pending, scope, wanted, limit, Tombstoned, Maintained(failed, |pending|, purged, 0));
      r := Ok(Maintained(failed, |pending|, purged, 0));
    }

    method RetryNext(scope: Scope, es: seq<CatalogEntry>, i: nat, purgeId: Id, g: Gaps) returns (ok: bool)
      requires Ready() && i < |es| && RetireProgress(stores.world, es, i, scope, Tombstoned, [])
      modifies stores
      ensures Ready() && ok && RetireProgress(stores.world, es, i + 1, scope, Tombstoned, [])
    {
      ghost var w := stores.world;
      EvolvesReflexive(w);
      ok := PurgeGone(w, scope, es[i], purgeId, g);
      NextRetired(w, stores.world, es, i, scope, Tombstoned, [], true);
    }
  }

  /** What a cleanup pass reports and leaves behind, once it has run over its listing. */
  ghost predicate PassDone(start: World, end: World, scope: Scope, wanted: CatalogEntry -> bool, limit: nat, s: State,
      r: Maintained) {
    && r.purged + |r.failed| == r.inspected <= limit && r.tombstoned <= r.purged
    && (forall id | id in r.failed :: MovedOn(end, Key(scope.tenantId, id), s))
    && (r.inspected < limit ==>
          forall k | Wanted(start.entries, k, scope, wanted) ::
            IsPurged(end, k) || start.entries[k].entry.metadata.contentReference.artifactId in r.failed)
  }

  predicate IsExpired(e: CatalogEntry, at: Time) {
    e.metadata.state == Available && e.metadata.retention.Expire? && e.metadata.retention.expiresAt.key <= at
  }

  lemma ExpiredListed(w: World, es: seq<CatalogEntry>, scope: Scope, wanted: CatalogEntry -> bool, at: Time, limit: nat)
    requires forall e | e in es :: Wanted(w.entries, KeyOf(e), scope, wanted) && w.entries[KeyOf(e)].entry == e
    requires forall i, j | 0 <= i < j < |es| :: KeyOf(es[i]) != KeyOf(es[j])
    requires |es| < limit ==> forall k | Wanted(w.entries, k, scope, wanted) :: w.entries[k].entry in es
    requires |es| <= limit && forall e :: wanted(e) == IsExpired(e, at)
    ensures ListsExpired(w, scope, at, limit, es)
  {
    forall e | e in es ensures ExpiryBy(e, at) { assert wanted(e) && e.metadata.retention == Expire(e.metadata.retention.expiresAt); }
  }

  lemma AbandonedListed(w: World, es: seq<CatalogEntry>, scope: Scope, wanted: CatalogEntry -> bool, threshold: Time,
      limit: nat)
    requires forall e | e in es :: Wanted(w.entries, KeyOf(e), scope, wanted) && w.entries[KeyOf(e)].entry == e
    requires forall i, j | 0 <= i < j < |es| :: KeyOf(es[i]) != KeyOf(es[j])
    requires |es| < limit ==> forall k | Wanted(w.entries, k, scope, wanted) :: w.entries[k].entry in es
    requires |es| <= limit && forall e :: wanted(e) == IsAbandoned(e, threshold)
    ensures ListsAbandoned(w, scope, threshold, limit, es)
  {
  }

  lemma ListedProgress(w: World, es: seq<CatalogEntry>, scope: Scope, wanted: CatalogEntry -> bool, s: State)
    requires forall e | e in es :: Wanted(w.entries, KeyOf(e), scope, wanted) && w.entries[KeyOf(e)].entry == e
    requires forall e | wanted(e) :: e.metadata.state == s
    ensures RetireProgress(w, es, 0, scope, s, [])
  {
    forall i | 0 <= i < |es| ensures Snapshot(w, es[i]) && es[i].metadata.scope == scope && es[i].metadata.state == s {
      assert es[i] in es;
    }
  }

  lemma AllListedDone(start: World, end: World, es: seq<CatalogEntry>, scope: Scope, wanted: CatalogEntry -> bool,
      limit: nat, s: State, r: Maintained)
    requires Keyed(start.entries) && RetireProgress(end, es, |es|, scope, s, r.failed)
    requires r.purged + |r.failed| == r.inspected == |es| <= limit && r.tombstoned <= r.purged
    requires |es| < limit ==> forall k | Wanted(start.entries, k, scope, wanted) :: start.entries[k].entry in es
    ensures PassDone(start, end, scope, wanted, limit, s, r)
  {
    if |es| < limit {
      forall k | Wanted(start.entries, k, scope, wanted)
        ensures IsPurged(end, k) || start.entries[k].entry.metadata.contentReference.artifactId in r.failed {
        var i :| 0 <= i < |es| && es[i] == start.entries[k].entry;
        assert KeyOf(es[i]) == k;
      }
    }
  }

  // ---------------------------------------------------------------- progress of a cleanup

  predicate Accepts(w: World, scope: Scope, t: Tombstone) { TombstoneEntry(w.entries, scope, t).result.Ok? }

  predicate Creates(w: World, scope: Scope, t: Tombstone) { Accepts(w, scope, t) && TombstoneEntry(w.entries, scope,
      t).result.value.0 }

  function StonesFor(es: seq<CatalogEntry>, t: Tombstone, tombstoneIds: nat -> Id): (ts: seq<Tombstone>)
    ensures |ts| == |es|
    ensures forall i | 0 <= i < |ts| :: ts[i] == StoneFor(es[i], t, tombstoneIds(i))
  {
    seq(|es|, i requires 0 <= i < |es| => StoneFor(es[i], t, tombstoneIds(i)))
  }

  function StoneFor(e: CatalogEntry, t: Tombstone, tombstoneId: Id): Tombstone {
    t.(artifactId := e.metadata.contentReference.artifactId, tombstoneId := tombstoneId)
  }

  function CreatedCount(met: seq<World>, scope: Scope, ts: seq<Tombstone>): nat
    requires |met| == |ts|
  {
    if met == [] then 0
    else
      var n := |met| - 1;
      CreatedCount(met[..n], scope, ts[..n]) + if Creates(met[n], scope, ts[n]) then 1 else 0
  }

  function RefusedIds(met: seq<World>, scope: Scope, ts: seq<Tombstone>): seq<Id>
    requires |met| == |ts|
  {
    if met == [] then []
    else
      var n := |met| - 1;
      RefusedIds(met[..n], scope, ts[..n]) + if Accepts(met[n], scope, ts[n]) then [] else [ts[n].artifactId]
  }

  /** Moments of the pass, in no particular order. */
  predicate Between(start: World, met: seq<World>, end: World) {
    Evolves(start, end) && forall i | 0 <= i < |met| :: Evolves(start, met[i]) && Evolves(met[i], end)
  }

  lemma BetweenGrows(start: World, met: seq<World>, w: World, m: World, v: World)
    requires Between(start, met, w) && Evolves(w, m) && Evolves(m, v)
    ensures Between(start, met + [m], v)
  {
    EvolvesTransitive(start, w, m);
    EvolvesTransitive(w, m, v);
    EvolvesTransitive(start, w, v);
    forall i | 0 <= i < |met| ensures Evolves(met[i], v) { EvolvesTransitive(met[i], w, v); }
  }

  lemma StonesPrefix(ts: seq<Tombstone>, i: nat)
    requires i < |ts|
    ensures ts[..i] + [ts[i]] == ts[..i + 1]
  {
  }

  /** Everything the cleanup loop knows after its first `|met|` candidates. */
  predicate RetireLoop(start: World, w: World, es: seq<CatalogEntry>, ts: seq<Tombstone>, scope: Scope, s: State,
                       purged: nat, tombstoned: nat, failed: seq<Id>, met: seq<World>) {
    && |met| <= |ts| == |es|
    && Between(start, met, w) && RetireProgress(w, es, |met|, scope, s, failed)
    && RetireTally(purged, tombstoned, failed, met, scope, ts[..|met|])
  }

  lemma RetireStarts(start: World, es: seq<CatalogEntry>, ts: seq<Tombstone>, scope: Scope, s: State)
    requires |ts| == |es| && RetireProgress(start, es, 0, scope, s, [])
    ensures RetireLoop(start, start, es, ts, scope, s, 0, 0, [], [])
  {
    EvolvesReflexive(start);
  }

  lemma RetireEnds(start: World, w: World, es: seq<CatalogEntry>, ts: seq<Tombstone>, scope: Scope, s: State,
                   purged: nat, tombstoned: nat, failed: seq<Id>, met: seq<World>)
    requires |met| == |es| && RetireLoop(start, w, es, ts, scope, s, purged, tombstoned, failed, met)
    ensures Between(start, met, w) && RetireProgress(w, es, |es|, scope, s, failed)
    ensures |met| == |ts| == purged + |failed| && tombstoned == CreatedCount(met, scope, ts) <= purged
    ensures failed == RefusedIds(met, scope, ts)
  {
    assert ts[..|es|] == ts;
  }

  lemma CandidateRetirable(start: World, w: World, es: seq<CatalogEntry>, ts: seq<Tombstone>, scope: Scope, s: State,
                           purged: nat, tombstoned: nat, failed: seq<Id>, met: seq<World>)
    requires |met| < |es| && RetireLoop(start, w, es, ts, scope, s, purged, tombstoned, failed, met)
    ensures Snapshot(w, es[|met|]) && es[|met|].metadata.scope == scope && es[|met|].metadata.state == s
  {
  }

  lemma CandidateRetired(start: World, w: World, v: World, es: seq<CatalogEntry>, ts: seq<Tombstone>, scope: Scope, s: State,
                         purged: nat, tombstoned: nat, failed: seq<Id>, met: seq<World>, m: World)
    requires |met| < |es| && RetireLoop(start, w, es, ts, scope, s, purged, tombstoned, failed, met)
    requires Evolves(w, m) && Evolves(m, v) && ts[|met|].artifactId == es[|met|].metadata.contentReference.artifactId
    requires if Accepts(m, scope, ts[|met|]) then IsPurged(v, KeyOf(es[|met|])) else MovedOn(v, KeyOf(es[|met|]), s)
    ensures var t := ts[|met|];
            RetireLoop(start, v, es, ts, scope, s, if Accepts(m, scope, t) then purged + 1 else purged,
                       if Creates(m, scope, t) then tombstoned + 1 else tombstoned,
                       if Accepts(m, scope, t) then failed else failed + [t.artifactId], met + [m])
  {
    EvolvesTransitive(w, m, v);
    BetweenGrows(start, met, w, m, v);
    NextRetired(w, v, es, |met|, scope, s, failed, Accepts(m, scope, ts[|met|]));
    NextRetireTally(purged, tombstoned, failed, met, m, scope, ts[..|met|], ts[|met|]);
    StonesPrefix(ts, |met|);
    assert failed + [] == failed;
  }

  predicate RetireTally(purged: nat, tombstoned: nat, failed: seq<Id>, met: seq<World>, scope: Scope, ts: seq<Tombstone>) {
    && |met| == |ts| == purged + |failed|
    && tombstoned == CreatedCount(met, scope, ts) <= purged
    && failed == RefusedIds(met, scope, ts)
  }

  lemma NextRetireTally(purged: nat, tombstoned: nat, failed: seq<Id>, met: seq<World>, m: World, scope: Scope,
      ts: seq<Tombstone>, t: Tombstone)
    requires RetireTally(purged, tombstoned, failed, met, scope, ts)
    ensures RetireTally(if Accepts(m, scope, t) then purged + 1 else purged, if Creates(m, scope, t) then tombstoned + 1 else tombstoned,
                        if Accepts(m, scope, t) then failed else failed + [t.artifactId], met + [m], scope, ts + [t])
  {
    assert (met + [m])[..|met|] == met && (ts + [t])[..|ts|] == ts;
    assert failed + [] == failed;
  }

  /** The artifact has advanced beyond state `s`, or a fixture owns it. */
  predicate MovedOn(w: World, k: Key, s: State) {
    k in w.entries && (StateRank(w.entries[k].entry.metadata.state) > StateRank(s) || w.entries[k].entry.ownership.Some?)
  }

  predicate RetiresWith(e: CatalogEntry, t: Tombstone) {
    && t.artifactId == e.metadata.contentReference.artifactId
    && ((e.metadata.state == State.Reserved && t.trigger == Abandoned) || (e.metadata.state == Available && t.trigger != Abandoned))
  }

  predicate Retirable(w: World, e: CatalogEntry, scope: Scope, t: Tombstone) {
    Snapshot(w, e) && e.metadata.scope == scope && RetiresWith(e, t)
  }

  lemma TombstoneAnswer(c: Codec, w: World, scope: Scope, e: CatalogEntry, t: Tombstone)
    requires StoresOk(c, w) && Retirable(w, e, scope, t)
    ensures var o := TombstoneEntry(w.entries, scope, t);
            var v := w.(entries := o.entries);
            && (o.result.Ok? ==> IsGone(v, KeyOf(e)) && Snapshot(v, e))
            && (o.result.Err? ==> MovedOn(v, KeyOf(e), e.metadata.state))
  {
    assert EntryOk(c, w, KeyOf(e));
  }

  predicate RetireProgress(w: World, es: seq<CatalogEntry>, n: nat, scope: Scope, s: State, failed: seq<Id>) {
    && n <= |es|
    && (forall i | 0 <= i < |es| :: Snapshot(w, es[i]) && es[i].metadata.scope == scope && es[i].metadata.state == s)
    && (forall i | 0 <= i < n :: IsPurged(w, KeyOf(es[i])) || es[i].metadata.contentReference.artifactId in failed)
    && (forall id | id in failed :: MovedOn(w, Key(scope.tenantId, id), s))
  }

  lemma NextRetired(w: World, v: World, es: seq<CatalogEntry>, n: nat, scope: Scope, s: State, failed: seq<Id>, ok: bool)
    requires n < |es| && RetireProgress(w, es, n, scope, s, failed) && Evolves(w, v)
    requires if ok then IsPurged(v, KeyOf(es[n])) else MovedOn(v, KeyOf(es[n]), s)
    ensures RetireProgress(v, es, n + 1, scope, s, failed + if ok then [] else [es[n].metadata.contentReference.artifactId])
  {
    var next := failed + if ok then [] else [es[n].metadata.contentReference.artifactId];
    forall i | 0 <= i < |es| ensures Snapshot(v, es[i]) { SnapshotStable(w, v, es[i]); }
    forall i | 0 <= i < n + 1 ensures IsPurged(v, KeyOf(es[i])) || es[i].metadata.contentReference.artifactId in next {
      if i < n && IsPurged(w, KeyOf(es[i])) { PurgedForever(w, v, KeyOf(es[i])); }
    }
    forall id | id in next ensures MovedOn(v, Key(scope.tenantId, id), s) {
      if id in failed { MovedOnStays(w, v, Key(scope.tenantId, id), s); }
    }
  }

  lemma MovedOnStays(w: World, v: World, k: Key, s: State)
    requires Evolves(w, v) && MovedOn(w, k, s)
    ensures MovedOn(v, k, s)
  {
    assert EntryEvolves(w, v, k);
  }

  predicate IsAbandoned(e: CatalogEntry, threshold: Time) {
    e.metadata.state == State.Reserved && e.metadata.createdAt <= threshold
  }

  lemma ListedInterrupted(c: Codec, w: World, es: seq<CatalogEntry>, scope: Scope, threshold: Time, at: Time)
    requires StoresOk(c, w) && threshold <= at
    requires forall e | e in es ::
      Wanted(w.entries, KeyOf(e), scope, (e: CatalogEntry) => IsAbandoned(e, threshold)) && w.entries[KeyOf(e)].entry == e
    ensures AllInterrupted(c, w, es, at)
    ensures forall i | 0 <= i < |es| :: es[i].metadata.scope == scope
  {
    forall i | 0 <= i < |es| ensures Interrupted(c, w, es[i], at) && es[i].metadata.scope == scope {
      assert es[i] in es;
      assert EntryOk(c, w, KeyOf(es[i]));
    }
  }

  /** Whatever is stored under an artifact's key decrypts under its reservation. */
  lemma StoredDecrypts(c: Codec, w: World, e: CatalogEntry)
    requires Lawful(c) && StoresOk(c, w) && Snapshot(w, e) && c.valid(e.metadata) && e.objectKey in w.objects
    ensures c.decrypt(e.metadata, e.plan, w.objects[e.objectKey]).Some?
  {
    assert EntryOk(c, w, KeyOf(e));
    DecryptsUnder(c, Reservation(e.metadata), e.metadata, e.plan, w.objects[e.objectKey]);
  }
}
