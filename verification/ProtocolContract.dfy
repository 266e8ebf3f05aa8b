/**
  What single steps of the lifecycle protocol do beyond keeping its invariant: the claim and revocation
  of owned content, the reconciliation of an interrupted upload, crashes and time.
 */
module ProtocolContract {
  import opened Prelude
  import opened ArtifactContract
  import opened Envelope
  import opened Catalog
  import opened Protocol
  import opened ProtocolSafety
  import opened Lifecycle

  // ---------------------------------------------------------------- owned content

  /** Available content that is kept for ever and that nobody owns yet. */
  predicate Unclaimed(w: World, scope: Scope, artifactId: Id) {
    var k := Key(scope.tenantId, artifactId);
    && k in w.entries && w.entries[k].entry.metadata.scope == scope && w.entries[k].entry.ownership.None?
    && w.entries[k].entry.metadata.state == Available && w.entries[k].entry.metadata.retention == Retain
    && w.entries[k].tombstone.None?
  }

  /**
    Once a fixture has claimed an artifact no tombstone of another kind reaches it: only the revocation
    of the fixture does, and then the object and the owner stay for the purge.
   */
  lemma ClaimedGoesByRevocation(c: Codec, w: World, o: Ownership, t: Tombstone, r: Tombstone)
    requires Unclaimed(w, o.scope, o.artifactId) && t.artifactId == r.artifactId == o.artifactId
    ensures var k := Key(o.scope.tenantId, o.artifactId);
            var v := Next(c, w, ClaimStep(o));
            var u := Next(c, v, RevokeStep(o.scope, r));
            && k in v.entries && v.entries[k].entry == w.entries[k].entry.(ownership := Some(o))
            && Next(c, v, TombstoneStep(o.scope, t)) == v
            && u.objects == v.objects == w.objects && u.processes == w.processes
            && (r.trigger != FixtureRevocation ==> u == v)
            && (r.trigger == FixtureRevocation ==>
                  && k in u.entries && u.entries[k].tombstone == Some(r) && u.entries[k].entry.ownership == Some(o)
                  && u.entries[k].entry.metadata == w.entries[k].entry.metadata.(state := Tombstoned, tombstonedAt := Some(r.occurredAt)))
  {
  }

  // ---------------------------------------------------------------- reconciliation

  /** A reconciliation takes up exactly the reservations of the scope that are no younger than its threshold. */
  lemma ListedExactly(c: Codec, w: World, p: nat, scope: Scope, artifactId: Id, threshold: Time, at: Time)
    requires p !in w.processes
    ensures var v := Next(c, w, ReconcileList(p, scope, artifactId, threshold, at));
            var k := Key(scope.tenantId, artifactId);
            if k in w.entries && w.entries[k].entry.metadata.scope == scope && w.entries[k].entry.metadata.state == Reserved
               && w.entries[k].entry.metadata.createdAt <= threshold <= at
            then v == Become(w, p, ReconcileListed(w.entries[k].entry, at))
            else v == w
  {
  }

  /** One that finds no object gives up and leaves the reservation as it is. */
  lemma NothingToReconcile(c: Codec, w: World, p: nat)
    requires p in w.processes && w.processes[p].ReconcileListed? && w.processes[p].entry.objectKey !in w.objects
    ensures Next(c, w, ReconcileGet(p)) == w.(processes := w.processes - {p})
  {
  }

  /** One that finds the object makes the artifact available, with the receipt of the object and the time of the pass. */
  lemma InterruptedIsFinished(c: Codec, w: World, p: nat, at: Time)
    requires Lawful(c) && Inv(c, w) && p in w.processes && w.processes[p].ReconcileListed?
    requires var e := w.processes[p].entry;
             && w.processes[p].occurredAt == at && e.objectKey in w.objects
             && w.entries[KeyOf(e)].entry.metadata.state == Reserved
    ensures var e := w.processes[p].entry;
            var v := Next(c, Next(c, w, ReconcileGet(p)), ReconcileActivate(p));
            && KeyOf(e) in v.entries && v.objects == w.objects && v.processes == w.processes - {p}
            && v.entries[KeyOf(e)].entry.metadata == w.entries[KeyOf(e)].entry.metadata.(state := Available, availableAt := Some(at))
            && v.entries[KeyOf(e)].entry.receipt == Some(c.receipt(w.objects[e.objectKey]))
  {
    var e := w.processes[p].entry;
    assert ProcessOk(c, w, w.processes[p]) && EntryOk(c, w, KeyOf(e));
    DecryptsUnder(c, Reservation(e.metadata), e.metadata, e.plan, w.objects[e.objectKey]);
    ReadNow(c, w, p);
    ActivateNow(c, w, p, e, at, w.objects[e.objectKey]);
  }

  lemma ReadNow(c: Codec, w: World, p: nat)
    requires p in w.processes && w.processes[p].ReconcileListed? && w.processes[p].entry.objectKey in w.objects
    ensures var q := w.processes[p];
            Next(c, w, ReconcileGet(p)) == Become(w, p, ReconcileRead(q.entry, q.occurredAt, w.objects[q.entry.objectKey]))
  {
  }

  lemma ActivateNow(c: Codec, w: World, p: nat, e: CatalogEntry, at: Time, bytes: Bytes)
    requires Snapshot(w, e) && w.entries[KeyOf(e)].entry.metadata.state == Reserved && c.decrypt(e.metadata, e.plan, bytes).Some?
    ensures var v := Next(c, Become(w, p, ReconcileRead(e, at, bytes)), ReconcileActivate(p));
            && KeyOf(e) in v.entries && v.objects == w.objects && v.processes == w.processes - {p}
            && v.entries[KeyOf(e)].entry.metadata == w.entries[KeyOf(e)].entry.metadata.(state := Available, availableAt := Some(at))
            && v.entries[KeyOf(e)].entry.receipt == Some(c.receipt(bytes))
  {
    assert Become(w, p, ReconcileRead(e, at, bytes)).processes - {p} == w.processes - {p};
  }

  // ---------------------------------------------------------------- crashes and time

  /** A crash loses what one process has captured and nothing else; time passes without touching anything. */
  lemma CrashLosesOnlyCaptures(c: Codec, w: World, p: nat, elapsed: nat)
    ensures var v := Next(c, w, Crash(p));
            && v.(processes := w.processes) == w && p !in v.processes
            && (forall q | q != p :: Lookup(v.processes, q) == Lookup(w.processes, q))
    ensures var v := Next(c, w, Tick(elapsed)); v.now == w.now + elapsed && v.(now := w.now) == w
  {
  }
}
