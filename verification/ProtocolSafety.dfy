/** What holds after every step of every schedule of the artifact lifecycle. */
module ProtocolSafety {
  import opened Prelude
  import J = Json
  import opened ArtifactContract
  import opened Envelope
  import opened Catalog
  import opened Protocol

  // ---------------------------------------------------------------- the relation of all runs

  lemma LaterTransitive(d: CatalogEntry, e: CatalogEntry, f: CatalogEntry)
    requires Later(d, e) && Later(e, f)
    ensures Later(d, f)
    ensures Gone(e) ==> Gone(f)
  {
  }

  lemma EvolvesReflexive(w: World)
    ensures Evolves(w, w)
  {
  }

  lemma EvolvesTransitive(u: World, v: World, w: World)
    requires Evolves(u, v) && Evolves(v, w)
    ensures Evolves(u, w)
  {
    forall k | k in u.entries ensures EntryEvolves(u, w, k) {
      assert EntryEvolves(u, v, k) && EntryEvolves(v, w, k);
      LaterTransitive(u.entries[k].entry, v.entries[k].entry, w.entries[k].entry);
    }
  }

  lemma SnapshotStable(w: World, v: World, e: CatalogEntry)
    requires Snapshot(w, e) && Evolves(w, v)
    ensures Snapshot(v, e)
    ensures IsGone(w, KeyOf(e)) ==> IsGone(v, KeyOf(e))
    ensures e.objectKey in w.objects && !IsGone(v, KeyOf(e)) ==> Lookup(v.objects, e.objectKey) == Lookup(w.objects, e.objectKey)
  {
    assert EntryEvolves(w, v, KeyOf(e));
    LaterTransitive(e, w.entries[KeyOf(e)].entry, v.entries[KeyOf(e)].entry);
  }

  /** A process keeps what it knows, whatever the others do. */
  lemma ProcessStable(c: Codec, w: World, v: World, q: Process)
    requires ProcessOk(c, w, q) && Evolves(w, v)
    ensures ProcessOk(c, v, q)
  {
    match q {
      case ReserveFound(m, existing) =>
        if existing.Some? { assert EntryEvolves(w, v, Key(m.scope.tenantId, m.contentReference.artifactId)); }
      case UploadConflicted(e) =>
      case _ => SnapshotStable(w, v, q.entry);
    }
  }

  lemma OthersStable(c: Codec, w: World, v: World, p: nat)
    requires Inv(c, w) && StoresOk(c, v) && Evolves(w, v)
    requires forall r | r in v.processes && r != p :: r in w.processes && v.processes[r] == w.processes[r]
    requires p in v.processes ==> ProcessOk(c, v, v.processes[p])
    ensures Inv(c, v)
  {
    forall r | r in v.processes ensures ProcessOk(c, v, v.processes[r]) {
      if r != p { ProcessStable(c, w, v, w.processes[r]); }
    }
  }

  // ---------------------------------------------------------------- effects on the stores

  /** The two stores differ only in the row of `k` and in its object. */
  ghost predicate OnlyRow(w: World, v: World, k: Key, o: ObjectKey) {
    && w.now == v.now
    && (forall l | l != k :: Lookup(v.entries, l) == Lookup(w.entries, l))
    && (forall x | x != o :: Lookup(v.objects, x) == Lookup(w.objects, x) && Lookup(v.issued, x) == Lookup(w.issued, x))
  }

  lemma OtherRow(c: Codec, w: World, v: World, k: Key, o: ObjectKey, l: Key)
    requires StoresOk(c, w) && OnlyRow(w, v, k, o) && l != k && l in v.entries
    requires Lookup(w.issued, o) == None || Lookup(w.issued, o) == Some(k)
    ensures l in w.entries && v.entries[l] == w.entries[l] && v.entries[l].entry.objectKey != o && EntryOk(c, v, l)
  {
    assert Lookup(v.entries, l) == Lookup(w.entries, l);
    assert EntryOk(c, w, l);
    var x := w.entries[l].entry.objectKey;
    assert Lookup(v.objects, x) == Lookup(w.objects, x) && Lookup(v.issued, x) == Lookup(w.issued, x);
  }

  /** A change confined to one sound row keeps both stores sound. */
  lemma RowChange(c: Codec, w: World, v: World, k: Key)
    requires StoresOk(c, w) && k in v.entries && EntryOk(c, v, k)
    requires OnlyRow(w, v, k, v.entries[k].entry.objectKey)
    requires Lookup(w.issued, v.entries[k].entry.objectKey) == if k in w.entries then Some(k) else None
    requires k in w.entries ==> EntryEvolves(w, v, k)
    ensures StoresOk(c, v) && Evolves(w, v)
  {
    var o := v.entries[k].entry.objectKey;
    forall l | l in v.entries ensures EntryOk(c, v, l) {
      if l != k { OtherRow(c, w, v, k, o, l); }
    }
    forall l | l in w.entries ensures EntryEvolves(w, v, l) {
      if l != k {
        assert Lookup(v.entries, l) == Lookup(w.entries, l);
        OtherRow(c, w, v, k, o, l);
        var x := w.entries[l].entry.objectKey;
        assert Lookup(v.objects, x) == Lookup(w.objects, x);
      }
    }
    forall x | x in v.objects ensures ObjectOk(v, x) {
      if x != o {
        assert Lookup(v.objects, x) == Lookup(w.objects, x) && Lookup(v.issued, x) == Lookup(w.issued, x);
        assert ObjectOk(w, x);
        if w.issued[x] != k { assert Lookup(v.entries, w.issued[x]) == Lookup(w.entries, w.issued[x]); }
      }
    }
  }

  /** One entry replaced by a later one. */
  lemma EntryAdvances(c: Codec, w: World, k: Key, s: Stored)
    requires StoresOk(c, w) && k in w.entries && Later(w.entries[k].entry, s.entry)
    requires w.entries[k].tombstone.Some? ==> s.tombstone == w.entries[k].tombstone
    requires w.entries[k].purge.Some? ==> s.purge == w.entries[k].purge
    requires EntryOk(c, w, k) ==> EntryOk(c, w.(entries := w.entries[k := s]), k)
    ensures var v := w.(entries := w.entries[k := s]); StoresOk(c, v) && Evolves(w, v)
  {
    assert EntryOk(c, w, k);
    RowChange(c, w, w.(entries := w.entries[k := s]), k);
  }

  lemma ActivateKeeps(c: Codec, w: World, e: CatalogEntry, receipt: Receipt, at: Time)
    requires Lawful(c) && StoresOk(c, w) && Snapshot(w, e) && e.metadata.createdAt <= at
    requires IsGone(w, KeyOf(e)) || (e.objectKey in w.objects && c.receipt(w.objects[e.objectKey]) == receipt)
    ensures StoresOk(c, ActivateFor(w, e, receipt, at)) && Evolves(w, ActivateFor(w, e, receipt, at))
  {
    var k := KeyOf(e);
    var s := w.entries[k];
    if s.entry.metadata.state == Reserved {
      var next := s.(entry := s.entry.(metadata := Activated(s.entry.metadata, at), receipt := Some(receipt)));
      ActivatedRowOk(c, w, k, receipt, at);
      EntryAdvances(c, w, k, next);
      assert EntryOk(c, w, k);
      assert ActivateFor(w, e, receipt, at) == w.(entries := w.entries[k := next]);
    } else {
      assert ActivateFor(w, e, receipt, at) == w;
      EvolvesReflexive(w);
    }
  }

  lemma ActivatedRowOk(c: Codec, w: World, k: Key, receipt: Receipt, at: Time)
    requires Lawful(c) && StoresOk(c, w) && k in w.entries
    requires w.entries[k].entry.metadata.state == Reserved && w.entries[k].entry.metadata.createdAt <= at
    requires w.entries[k].entry.objectKey in w.objects && c.receipt(w.objects[w.entries[k].entry.objectKey]) == receipt
    ensures var s := w.entries[k];
            var next := s.(entry := s.entry.(metadata := Activated(s.entry.metadata, at), receipt := Some(receipt)));
            EntryOk(c, w.(entries := w.entries[k := next]), k) && Later(s.entry, next.entry)
  {
    assert EntryOk(c, w, k);
    assert c.valid(Activated(w.entries[k].entry.metadata, at));
  }

  lemma BuryKeeps(c: Codec, w: World, k: Key, t: Tombstone)
    requires StoresOk(c, w) && k in w.entries && !Gone(w.entries[k].entry)
    ensures var v := w.(entries := w.entries[k := Bury(w.entries[k], t)]); StoresOk(c, v) && Evolves(w, v)
  {
    assert EntryOk(c, w, k);
    EntryAdvances(c, w, k, Bury(w.entries[k], t));
  }

  lemma TombstoneKeeps(c: Codec, w: World, scope: Scope, t: Tombstone)
    requires StoresOk(c, w)
    ensures var v := w.(entries := TombstoneEntry(w.entries, scope, t).entries); StoresOk(c, v) && Evolves(w, v)
  {
    var v := w.(entries := TombstoneEntry(w.entries, scope, t).entries);
    if v != w { BuryKeeps(c, w, Key(scope.tenantId, t.artifactId), t); }
  }

  lemma RevokeKeeps(c: Codec, w: World, scope: Scope, t: Tombstone)
    requires StoresOk(c, w)
    ensures var v := w.(entries := TombstoneOwned(w.entries, scope, t).entries); StoresOk(c, v) && Evolves(w, v)
  {
    var v := w.(entries := TombstoneOwned(w.entries, scope, t).entries);
    if v != w { BuryKeeps(c, w, Key(scope.tenantId, t.artifactId), t); }
  }

  lemma ClaimKeeps(c: Codec, w: World, o: Ownership)
    requires StoresOk(c, w)
    ensures var v := w.(entries := Claim(w.entries, o).entries); StoresOk(c, v) && Evolves(w, v)
  {
    var v := w.(entries := Claim(w.entries, o).entries);
    var k := Key(o.scope.tenantId, o.artifactId);
    if v != w {
      ClaimedRow(c, w, k, o);
      EntryAdvances(c, w, k, w.entries[k].(entry := w.entries[k].entry.(ownership := Some(o))));
    }
  }

  lemma ClaimedRow(c: Codec, w: World, k: Key, o: Ownership)
    requires StoresOk(c, w) && k in w.entries
    ensures EntryOk(c, w.(entries := w.entries[k := w.entries[k].(entry := w.entries[k].entry.(ownership := Some(o)))]), k)
  {
    assert EntryOk(c, w, k);
  }

  lemma RecordKeeps(c: Codec, w: World, scope: Scope, r: PurgeReceipt)
    requires StoresOk(c, w)
    ensures var v := w.(entries := RecordPurge(w.entries, scope, r).entries); StoresOk(c, v) && Evolves(w, v)
  {
    var v := w.(entries := RecordPurge(w.entries, scope, r).entries);
    var k := Key(scope.tenantId, r.artifactId);
    if v != w {
      var e := w.entries[k].entry;
      assert EntryOk(c, w, k);
      var next := e.(metadata := e.metadata.(purgedAt := Some(r.occurredAt), state := Purged));
      EntryAdvances(c, w, k, w.entries[k].(entry := next, purge := Some(r)));
    }
  }

  lemma DeletedRow(c: Codec, w: World, e: CatalogEntry)
    requires StoresOk(c, w) && Snapshot(w, e) && Gone(e)
    ensures EntryOk(c, w.(objects := w.objects - {e.objectKey}), KeyOf(e))
    ensures Lookup(w.issued, e.objectKey) == Some(KeyOf(e))
  {
    assert EntryOk(c, w, KeyOf(e));
  }

  /** Deleting is safe because only a tombstoned artifact's object is ever deleted. */
  lemma DeleteKeeps(c: Codec, w: World, e: CatalogEntry)
    requires StoresOk(c, w) && Snapshot(w, e) && Gone(e)
    ensures var v := w.(objects := w.objects - {e.objectKey}); StoresOk(c, v) && Evolves(w, v)
  {
    var v := w.(objects := w.objects - {e.objectKey});
    DeletedRow(c, w, e);
    RowChange(c, w, v, KeyOf(e));
  }

  /** What an accepted upload stores is the one object its reservation allows. */
  lemma PutKeeps(c: Codec, w: World, e: CatalogEntry, content: Bytes)
    requires Lawful(c) && StoresOk(c, w) && Snapshot(w, e) && c.valid(e.metadata)
    requires c.encrypt(e.metadata, e.plan, content).Some?
    ensures var bytes := c.encrypt(e.metadata, e.plan, content).value;
            var v := PutIfAbsent(w, e.objectKey, bytes);
            v.objects[e.objectKey] == bytes && StoresOk(c, v) && Evolves(w, v)
  {
    var bytes := c.encrypt(e.metadata, e.plan, content).value;
    var v := PutIfAbsent(w, e.objectKey, bytes);
    var r := Reservation(e.metadata);
    assert EntryOk(c, w, KeyOf(e));
    assert c.decrypt(r, e.plan, bytes) == Some(content);
    if e.objectKey in w.objects {
      assert c.decrypt(r, e.plan, w.objects[e.objectKey]).Some?;
      EvolvesReflexive(w);
    } else {
      RowChange(c, w, v, KeyOf(e));
    }
  }

  lemma InsertKeeps(c: Codec, w: World, candidate: CatalogEntry)
    requires StoresOk(c, w)
    requires KeyOf(candidate) in w.entries || candidate.objectKey !in w.issued
    requires c.valid(candidate.metadata) && candidate.metadata == Reservation(candidate.metadata) && candidate.metadata.createdAt <= w.now
    requires candidate.receipt.None? && candidate.ownership.None?
    ensures StoresOk(c, Insert(w, candidate)) && Evolves(w, Insert(w, candidate))
  {
    var k := KeyOf(candidate);
    var v := Insert(w, candidate);
    if k in w.entries {
      assert v == w;
      EvolvesReflexive(w);
    } else {
      assert candidate.objectKey in w.objects ==> ObjectOk(w, candidate.objectKey);
      RowChange(c, w, v, k);
    }
  }

  // ---------------------------------------------------------------- every step keeps the invariant

  /** The stores went from `w` to `u`; then one process moved on. */
  lemma ProcessMoves(c: Codec, w: World, u: World, v: World, p: nat)
    requires Inv(c, w) && StoresOk(c, u) && Evolves(w, u)
    requires v == u.(processes := v.processes)
    requires forall r | r in v.processes && r != p :: r in w.processes && v.processes[r] == w.processes[r]
    requires p in v.processes ==> ProcessOk(c, u, v.processes[p])
    ensures Inv(c, v) && Evolves(w, v)
  {
    forall k | k in v.entries ensures EntryOk(c, v, k) { assert EntryOk(c, u, k); }
    forall o | o in v.objects ensures ObjectOk(v, o) { assert ObjectOk(u, o); }
    forall k | k in w.entries ensures EntryEvolves(w, v, k) { assert EntryEvolves(w, u, k); }
    if p in v.processes { SameStoresProcess(c, u, v, v.processes[p]); }
    OthersStable(c, w, v, p);
  }

  lemma SameStoresProcess(c: Codec, u: World, v: World, q: Process)
    requires v == u.(processes := v.processes) && ProcessOk(c, u, q)
    ensures ProcessOk(c, v, q)
  {
  }

  lemma Unchanged(c: Codec, w: World)
    requires Inv(c, w)
    ensures Inv(c, w) && Evolves(w, w)
  {
    EvolvesReflexive(w);
  }

  lemma ReserveFindKeeps(c: Codec, w: World, p: nat, m: Metadata)
    requires Inv(c, w)
    ensures var v := ReserveFindStep(c, w, p, m); Inv(c, v) && Evolves(w, v)
  {
    Unchanged(c, w);
    ProcessMoves(c, w, w, ReserveFindStep(c, w, p, m), p);
  }

  lemma ReserveCommitKeeps(c: Codec, w: World, p: nat, principalId: Id, dataKey: Bytes, nonce: Bytes, freshKey: ObjectKey)
    requires Inv(c, w)
    ensures var v := ReserveCommitStep(c, w, p, principalId, dataKey, nonce, freshKey); Inv(c, v) && Evolves(w, v)
  {
    if p in w.processes && w.processes[p].ReserveFound? && freshKey !in w.issued {
      assert ProcessOk(c, w, w.processes[p]);
      var u := Insert(w, Candidate(c, w.processes[p], principalId, dataKey, nonce, freshKey));
      InsertKeeps(c, w, Candidate(c, w.processes[p], principalId, dataKey, nonce, freshKey));
      ProcessMoves(c, w, u, Finish(u, p), p);
    } else {
      Unchanged(c, w);
    }
  }

  lemma FoundSnapshot(c: Codec, w: World, scope: Scope, artifactId: Id)
    requires StoresOk(c, w)
    ensures var f := Find(w.entries, scope, artifactId);
            f.Some? ==> Snapshot(w, f.value) && KeyOf(f.value) == Key(scope.tenantId, artifactId) && (!Gone(f.value) ==> c.valid(f.value.metadata))
  {
    var k := Key(scope.tenantId, artifactId);
    if k in w.entries { assert EntryOk(c, w, k); }
  }

  lemma UploadFindKeeps(c: Codec, w: World, p: nat, scope: Scope, artifactId: Id, content: Bytes)
    requires Inv(c, w)
    ensures var v := UploadFindStep(w, p, scope, artifactId, content); Inv(c, v) && Evolves(w, v)
  {
    Unchanged(c, w);
    FoundSnapshot(c, w, scope, artifactId);
    ProcessMoves(c, w, w, UploadFindStep(w, p, scope, artifactId, content), p);
  }

  lemma ReconcileListKeeps(c: Codec, w: World, p: nat, scope: Scope, artifactId: Id, threshold: Time, at: Time)
    requires Inv(c, w)
    ensures var v := ReconcileListStep(w, p, scope, artifactId, threshold, at); Inv(c, v) && Evolves(w, v)
  {
    Unchanged(c, w);
    FoundSnapshot(c, w, scope, artifactId);
    ProcessMoves(c, w, w, ReconcileListStep(w, p, scope, artifactId, threshold, at), p);
  }

  lemma PurgeFindKeeps(c: Codec, w: World, p: nat, scope: Scope, artifactId: Id)
    requires Inv(c, w)
    ensures var v := PurgeFindStep(w, p, scope, artifactId); Inv(c, v) && Evolves(w, v)
  {
    Unchanged(c, w);
    FoundSnapshot(c, w, scope, artifactId);
    ProcessMoves(c, w, w, PurgeFindStep(w, p, scope, artifactId), p);
  }

  lemma ReconcileGetKeeps(c: Codec, w: World, p: nat)
    requires Inv(c, w)
    ensures var v := ReconcileGetStep(w, p); Inv(c, v) && Evolves(w, v)
  {
    Unchanged(c, w);
    var v := ReconcileGetStep(w, p);
    if p in v.processes { ReadIsOk(c, w, p); }
    ProcessMoves(c, w, w, v, p);
  }

  lemma ReadIsOk(c: Codec, w: World, p: nat)
    requires Inv(c, w) && p in ReconcileGetStep(w, p).processes
    ensures ProcessOk(c, w, ReconcileGetStep(w, p).processes[p])
  {
    assert ProcessOk(c, w, w.processes[p]);
  }

  lemma UploadPutKeeps(c: Codec, w: World, p: nat, accepts: bool)
    requires Lawful(c) && Inv(c, w)
    ensures var v := UploadPutStep(c, w, p, accepts); Inv(c, v) && Evolves(w, v)
  {
    Unchanged(c, w);
    if p in w.processes && w.processes[p].UploadFound? {
      var e := w.processes[p].entry;
      var encrypted := c.encrypt(e.metadata, e.plan, w.processes[p].content);
      assert ProcessOk(c, w, w.processes[p]);
      if encrypted.Some? && accepts {
        AcceptedPutKeeps(c, w, p, e, w.processes[p].content);
      } else {
        ProcessMoves(c, w, w, Finish(w, p), p);
      }
    }
  }

  lemma AcceptedPutKeeps(c: Codec, w: World, p: nat, e: CatalogEntry, content: Bytes)
    requires Lawful(c) && Inv(c, w) && p in w.processes && w.processes[p] == UploadFound(e, content)
    requires c.encrypt(e.metadata, e.plan, content).Some?
    ensures var v := UploadPutStep(c, w, p, true); Inv(c, v) && Evolves(w, v)
  {
    var bytes := c.encrypt(e.metadata, e.plan, content).value;
    var u := PutIfAbsent(w, e.objectKey, bytes);
    assert ProcessOk(c, w, w.processes[p]);
    PutKeeps(c, w, e, content);
    SnapshotStable(w, u, e);
    assert EntryOk(c, w, KeyOf(e));
    assert ProcessOk(c, u, UploadStored(e, c.receipt(bytes), w.now));
    ProcessMoves(c, w, u, UploadPutStep(c, w, p, true), p);
  }

  lemma UploadActivateKeeps(c: Codec, w: World, p: nat)
    requires Lawful(c) && Inv(c, w)
    ensures Inv(c, UploadActivateStep(w, p)) && Evolves(w, UploadActivateStep(w, p))
  {
    if p in w.processes && w.processes[p].UploadStored? {
      var q := w.processes[p];
      assert ProcessOk(c, w, q);
      ActivateKeeps(c, w, q.entry, q.receipt, q.availableAt);
      ProcessMoves(c, w, ActivateFor(w, q.entry, q.receipt, q.availableAt), UploadActivateStep(w, p), p);
    } else {
      Unchanged(c, w);
    }
  }

  lemma ReconcileActivateKeeps(c: Codec, w: World, p: nat)
    requires Lawful(c) && Inv(c, w)
    ensures Inv(c, ReconcileActivateStep(c, w, p)) && Evolves(w, ReconcileActivateStep(c, w, p))
  {
    Unchanged(c, w);
    if p in w.processes && w.processes[p].ReconcileRead? {
      var q := w.processes[p];
      assert ProcessOk(c, w, q);
      if c.decrypt(q.entry.metadata, q.entry.plan, q.bytes).Some? {
        ActivateKeeps(c, w, q.entry, c.receipt(q.bytes), q.occurredAt);
        ProcessMoves(c, w, ActivateFor(w, q.entry, c.receipt(q.bytes), q.occurredAt), ReconcileActivateStep(c, w, p), p);
      } else {
        ProcessMoves(c, w, w, Finish(w, p), p);
      }
    }
  }

  lemma PurgeDeleteKeeps(c: Codec, w: World, p: nat)
    requires Inv(c, w)
    ensures var v := PurgeDeleteStep(w, p); Inv(c, v) && Evolves(w, v)
  {
    if p in w.processes && w.processes[p].PurgeFound? {
      var e := w.processes[p].entry;
      var u := w.(objects := w.objects - {e.objectKey});
      assert ProcessOk(c, w, w.processes[p]);
      DeleteKeeps(c, w, e);
      SnapshotStable(w, u, e);
      ProcessMoves(c, w, u, PurgeDeleteStep(w, p), p);
    } else {
      Unchanged(c, w);
    }
  }

  lemma PurgeRecordKeeps(c: Codec, w: World, p: nat, at: Time, purgeId: Id)
    requires Inv(c, w)
    ensures var v := PurgeRecordStep(w, p, at, purgeId); Inv(c, v) && Evolves(w, v)
  {
    if p in w.processes && w.processes[p].PurgeDeleted? {
      var q := w.processes[p];
      var r := PurgeReceipt(q.entry.metadata.contentReference.artifactId, q.objectWasPresent, at, purgeId);
      RecordKeeps(c, w, q.entry.metadata.scope, r);
      ProcessMoves(c, w, w.(entries := RecordPurge(w.entries, q.entry.metadata.scope, r).entries), PurgeRecordStep(w, p, at, purgeId), p);
    } else {
      Unchanged(c, w);
    }
  }

  lemma TickKeeps(c: Codec, w: World, elapsed: nat)
    requires Inv(c, w)
    ensures var v := w.(now := w.now + elapsed); Inv(c, v) && Evolves(w, v)
  {
    var v := w.(now := w.now + elapsed);
    forall k | k in v.entries ensures EntryOk(c, v, k) { assert EntryOk(c, w, k); }
    forall o | o in v.objects ensures ObjectOk(v, o) { assert ObjectOk(w, o); }
    StoreStepKeeps(c, w, v);
  }

  /** A step that belongs to no process. */
  lemma StoreStepKeeps(c: Codec, w: World, v: World)
    requires Inv(c, w) && StoresOk(c, v) && Evolves(w, v) && v.processes == w.processes
    ensures Inv(c, v)
  {
    forall r | r in v.processes ensures ProcessOk(c, v, v.processes[r]) { ProcessStable(c, w, v, w.processes[r]); }
  }

  lemma OwnerStepKeeps(c: Codec, w: World, step: Step)
    requires Inv(c, w) && (step.TombstoneStep? || step.RevokeStep? || step.ClaimStep?)
    ensures Inv(c, Next(c, w, step)) && Evolves(w, Next(c, w, step))
  {
    match step {
      case TombstoneStep(scope, t) => TombstoneKeeps(c, w, scope, t);
      case RevokeStep(scope, t) => RevokeKeeps(c, w, scope, t);
      case ClaimStep(o) => ClaimKeeps(c, w, o);
    }
    StoreStepKeeps(c, w, Next(c, w, step));
  }

  lemma WriterStepKeeps(c: Codec, w: World, step: Step)
    requires Lawful(c) && Inv(c, w)
    requires step.ReserveFind? || step.ReserveCommit? || step.UploadFind? || step.UploadPut? || step.UploadActivate?
    ensures Inv(c, Next(c, w, step)) && Evolves(w, Next(c, w, step))
  {
    match step {
      case ReserveFind(p, m) => ReserveFindKeeps(c, w, p, m);
      case ReserveCommit(p, principalId, dataKey, nonce, freshKey) => ReserveCommitKeeps(c, w, p, principalId, dataKey, nonce, freshKey);
      case UploadFind(p, scope, artifactId, content) => UploadFindKeeps(c, w, p, scope, artifactId, content);
      case UploadPut(p, accepts) => UploadPutKeeps(c, w, p, accepts);
      case UploadActivate(p) => UploadActivateKeeps(c, w, p);
    }
  }

  lemma PurgeStepKeeps(c: Codec, w: World, step: Step)
    requires Inv(c, w) && (step.PurgeFind? || step.PurgeDelete? || step.PurgeRecord?)
    ensures Inv(c, Next(c, w, step)) && Evolves(w, Next(c, w, step))
  {
    match step {
      case PurgeFind(p, scope, artifactId) => PurgeFindKeeps(c, w, p, scope, artifactId);
      case PurgeDelete(p) => PurgeDeleteKeeps(c, w, p);
      case PurgeRecord(p, at, purgeId) => PurgeRecordKeeps(c, w, p, at, purgeId);
    }
  }

  lemma ReconcileStepKeeps(c: Codec, w: World, step: Step)
    requires Lawful(c) && Inv(c, w) && (step.ReconcileList? || step.ReconcileGet? || step.ReconcileActivate?)
    ensures Inv(c, Next(c, w, step)) && Evolves(w, Next(c, w, step))
  {
    match step {
      case ReconcileList(p, scope, artifactId, threshold, at) => ReconcileListKeeps(c, w, p, scope, artifactId, threshold, at);
      case ReconcileGet(p) => ReconcileGetKeeps(c, w, p);
      case ReconcileActivate(p) => ReconcileActivateKeeps(c, w, p);
    }
  }

  lemma CrashKeeps(c: Codec, w: World, p: nat)
    requires Inv(c, w)
    ensures Inv(c, Finish(w, p)) && Evolves(w, Finish(w, p))
  {
    Unchanged(c, w);
    ProcessMoves(c, w, w, Finish(w, p), p);
  }

  lemma TickStepKeeps(c: Codec, w: World, step: Step)
    requires Inv(c, w) && step.Tick?
    ensures Inv(c, Next(c, w, step)) && Evolves(w, Next(c, w, step))
  {
    TickKeeps(c, w, step.elapsed);
  }

  lemma CrashStepKeeps(c: Codec, w: World, step: Step)
    requires Inv(c, w) && step.Crash?
    ensures Inv(c, Next(c, w, step)) && Evolves(w, Next(c, w, step))
  {
    CrashKeeps(c, w, step.p);
  }

  lemma StepKeeps(c: Codec, w: World, step: Step)
    requires Lawful(c) && Inv(c, w)
    ensures Inv(c, Next(c, w, step)) && Evolves(w, Next(c, w, step))
  {
    if step.Tick? { TickStepKeeps(c, w, step); }
    else if step.Crash? { CrashStepKeeps(c, w, step); }
    else if step.PurgeFind? || step.PurgeDelete? || step.PurgeRecord? { PurgeStepKeeps(c, w, step); }
    else if step.ReconcileList? || step.ReconcileGet? || step.ReconcileActivate? { ReconcileStepKeeps(c, w, step); }
    else if step.TombstoneStep? || step.RevokeStep? || step.ClaimStep? { OwnerStepKeeps(c, w, step); }
    else { WriterStepKeeps(c, w, step); }
  }

  lemma {:induction false} RunKeeps(c: Codec, w: World, schedule: seq<Step>)
    requires Lawful(c) && Inv(c, w)
    ensures Inv(c, Run(c, w, schedule)) && Evolves(w, Run(c, w, schedule))
    decreases |schedule|
  {
    if schedule != [] {
      var v := Next(c, w, schedule[0]);
      StepKeeps(c, w, schedule[0]);
      RunKeeps(c, v, schedule[1..]);
      EvolvesTransitive(w, v, Run(c, v, schedule[1..]));
    } else {
      EvolvesReflexive(w);
    }
  }
}
