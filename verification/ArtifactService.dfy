/**
  The artifact use cases as methods over the shared stores.  A parameter `g` is what the other
  processes do during the matching `await`; `accepts`, keys and identifiers are what inspection and
  the generators return.
 */
module ArtifactService {
  import opened Prelude
  import J = Json
  import opened ArtifactContract
  import opened Envelope
  import opened Catalog
  import opened Protocol
  import opened ProtocolSafety
  import opened Lifecycle
  import opened Stores
  import opened UseCases

  /** What the reconciliation and maintenance passes report. */
  datatype Reconciled = Reconciled(activated: nat, failed: seq<Id>, inspected: nat, missing: nat)
  datatype Maintained = Maintained(failed: seq<Id>, inspected: nat, purged: nat, tombstoned: nat)

  class Artifacts {
    const stores: Backend

    constructor (stores: Backend)
      ensures this.stores == stores
    {
      this.stores := stores;
    }

    method Reserve(m: Metadata, principalId: Id, dataKey: Bytes, nonce: Bytes, freshKey: ObjectKey, g: seq<Step>)
        returns (r: Result<(bool, Metadata), CallError>)
      requires stores.Valid() && freshKey !in Run(stores.codec, stores.world, g).issued
      modifies stores
      ensures stores.Valid()
      ensures Call(stores.world, r) == ReserveCall(stores.codec, old(stores.world), m, principalId, dataKey, nonce, freshKey, g)
    {
      ReserveCallRight(stores.codec, stores.world, m, principalId, dataKey, nonce, freshKey, g);
      if !stores.codec.valid(m) || m != Reservation(m) || m.createdAt > stores.world.now { return Err(CallRefused); }
      var existing := stores.Find(m.scope, m.contentReference.artifactId);
      if existing.None? && m.retention.Expire? && m.retention.expiresAt.key <= m.createdAt { return Err(CallRefused); }
      stores.Await(g);
      var candidate;
      match existing {
        case Some(e) => candidate := CatalogEntry(e.createdByPrincipalId, e.plan, m, e.objectKey, None, None);
        case None => candidate := CatalogEntry(principalId, stores.codec.plan(m, dataKey, nonce), m, freshKey, None, None);
      }
      var result := stores.Reserve(candidate);
      match result {
        case Ok(reserved) => r := Ok((reserved.0, reserved.1.metadata));
        case Err(error) => r := Err(CallCatalog(error));
      }
    }

    method Upload(scope: Scope, artifactId: Id, content: Bytes, accepts: bool, g1: seq<Step>, g2: seq<Step>)
        returns (r: Result<Metadata, CallError>)
      requires stores.Valid()
      modifies stores
      ensures stores.Valid()
      ensures Call(stores.world, r) == UploadCall(stores.codec, old(stores.world), scope, artifactId, content, accepts, g1, g2)
    {
      UploadCallRight(stores.codec, stores.world, scope, artifactId, content, accepts, g1, g2);
      var found := stores.Find(scope, artifactId);
      if found.None? { return Err(CallNotFound); }
      var entry := found.value;
      if entry.metadata.state != Reserved && entry.metadata.state != Available { return Err(CallStateTransition); }
      stores.Await(g1);
      var encrypted := stores.codec.encrypt(entry.metadata, entry.plan, content);
      if encrypted.None? || !accepts { return Err(CallRefused); }
      r := Store(entry, encrypted.value, g2, content);
    }

    method Store(entry: CatalogEntry, bytes: Bytes, g2: seq<Step>, ghost content: Bytes) returns (r: Result<Metadata,
        CallError>)
      requires stores.Valid() && Snapshot(stores.world, entry) && stores.codec.valid(entry.metadata)
      requires stores.codec.encrypt(entry.metadata, entry.plan, content) == Some(bytes)
      modifies stores
      ensures stores.Valid()
      ensures Call(stores.world, r) == UploadStore(stores.codec, old(stores.world), entry, bytes, g2)
    {
      PutKeepsInv(stores.codec, stores.world, entry, content);
      UploadStoreRight(stores.codec, stores.world, entry, content, g2);
      ghost var w := stores.world;
      var stored := stores.PutIfAbsent(entry.objectKey, bytes);
      PutDetermined(w, stores.world, entry.objectKey, bytes);
      if stored != stores.codec.receipt(bytes) { return Err(CallObjectConflict); }
      r := ActivateStored(entry, stored, stores.world.now, g2);
    }

    method ActivateStored(entry: CatalogEntry, stored: Receipt, availableAt: Time, g2: seq<Step>)
        returns (r: Result<Metadata, CallError>)
      requires stores.Valid()
      modifies stores
      ensures Call(stores.world, r) == UploadFinish(Run(stores.codec, old(stores.world), g2), entry, stored, availableAt)
    {
      stores.Await(g2);
      var activated := stores.Activate(entry.metadata.scope, entry.metadata.contentReference.artifactId, stored, availableAt);
      match activated {
        case Ok(e) => r := Ok(e.metadata);
        case Err(error) => r := Err(if error == StateTransition then CallStateTransition else CallCatalog(error));
      }
    }

    method Read(scope: Scope, artifactId: Id, mayReadRestricted: bool, g: seq<Step>)
        returns (r: Result<(Bytes, Metadata), CallError>)
      requires stores.Valid()
      modifies stores
      ensures stores.Valid()
      ensures Call(stores.world, r) == ReadCall(stores.codec, old(stores.world), scope, artifactId, mayReadRestricted, g)
    {
      var found := stores.Find(scope, artifactId);
      if found.None? { return Err(CallNotFound); }
      var entry := found.value;
      if entry.metadata.contentReference.classification == Ascii("restricted") && !mayReadRestricted { return Err(CallForbidden); }
      if entry.metadata.state != Available { return Err(CallUnavailable); }
      stores.Await(g);
      r := ReadStored(entry);
    }

    method ReadStored(entry: CatalogEntry) returns (r: Result<(Bytes, Metadata), CallError>)
      ensures r == ReadObject(stores.codec, stores.world, entry)
    {
      var encrypted := stores.Get(entry.objectKey);
      if encrypted.None? { return Err(CallObjectMissing); }
      if entry.receipt != Some(stores.codec.receipt(encrypted.value)) { return Err(CallProtection); }
      var content := stores.codec.decrypt(entry.metadata, entry.plan, encrypted.value);
      r := if content.None? then Err(CallProtection) else Ok((content.value, entry.metadata));
    }

    method Purge(scope: Scope, artifactId: Id, purgeId: Id, g1: seq<Step>, g2: seq<Step>) returns (r: Result<Metadata,
        CallError>)
      requires stores.Valid()
      modifies stores
      ensures stores.Valid() && Evolves(old(stores.world), stores.world)
      ensures Call(stores.world, r) == PurgeCall(stores.codec, old(stores.world), scope, artifactId, purgeId, g1, g2)
    {
      ghost var w := stores.world;
      FoundSnapshot(stores.codec, w, scope, artifactId);
      EvolvesReflexive(w);
      var found := stores.Find(scope, artifactId);
      if found.None? { return Err(CallNotFound); }
      var entry := found.value;
      if entry.metadata.state == Purged { return Ok(entry.metadata); }
      if entry.metadata.state != Tombstoned { return Err(CallStateTransition); }
      stores.Await(g1);
      SnapshotStable(w, stores.world, entry);
      r := DeleteAndRecord(entry, purgeId, g2);
      EvolvesTransitive(w, Run(stores.codec, w, g1), stores.world);
    }

    method DeleteAndRecord(entry: CatalogEntry, purgeId: Id, g2: seq<Step>) returns (r: Result<Metadata, CallError>)
      requires stores.Valid() && Snapshot(stores.world, entry) && Gone(entry)
      modifies stores
      ensures stores.Valid() && Evolves(old(stores.world), stores.world)
      ensures var w := old(stores.world);
              Call(stores.world, r) == PurgeFinish(Run(stores.codec, DeleteObject(w, entry.objectKey), g2), entry,
                                                   entry.objectKey in w.objects, w.now, purgeId)
    {
      ghost var w := stores.world;
      DeleteKeeps(stores.codec, w, entry);
      ghost var w1 := DeleteObject(w, entry.objectKey);
      StoreStepKeeps(stores.codec, w, w1);
      SnapshotStable(w, w1, entry);
      var occurredAt := stores.world.now;
      var deleted := stores.Delete(entry.objectKey);
      stores.Await(g2);
      ghost var w2 := stores.world;
      EvolvesTransitive(w, w1, w2);
      SnapshotStable(w1, w2, entry);
      PurgeFinishRight(stores.codec, w2, entry, deleted, occurredAt, purgeId);
      var receipt := PurgeReceipt(entry.metadata.contentReference.artifactId, deleted, occurredAt, purgeId);
      RecordKeeps(stores.codec, w2, entry.metadata.scope, receipt);
      var purged := stores.RecordPurge(entry.metadata.scope, receipt);
      EvolvesTransitive(w, w2, stores.world);
      match purged {
        case Ok(e) => r := Ok(e.metadata);
        case Err(error) => r := Err(if error == StateTransition then CallStateTransition else CallCatalog(error));
      }
    }
  }

  lemma PutKeepsInv(c: Codec, w: World, e: CatalogEntry, content: Bytes)
    requires Lawful(c) && Inv(c, w) && Snapshot(w, e) && c.valid(e.metadata) && c.encrypt(e.metadata, e.plan, content).Some?
    ensures Inv(c, Protocol.PutIfAbsent(w, e.objectKey, c.encrypt(e.metadata, e.plan, content).value))
  {
    PutKeeps(c, w, e, content);
    StoreStepKeeps(c, w, Protocol.PutIfAbsent(w, e.objectKey, c.encrypt(e.metadata, e.plan, content).value));
  }
}
