/**
  The artifact lifecycle as a concurrent protocol over two stores that share no transaction: a
  catalog with atomic operations, and an object store with put-if-absent, get and delete.

  Every use case is a process.  A process holds the locals its code has captured; each step of it
  runs from one `await` to the next, and it may crash at any of them.  A schedule is a list of
  steps of any number of processes in any order.
 */
module Protocol {
  import opened Prelude
  import J = Json
  import opened ArtifactContract
  import opened Envelope
  import opened Catalog

  type Objects = map<ObjectKey, Bytes>

  /**
    What the protocol needs of metadata validation and of the cipher, as values.  Lawful says what
    is assumed of them, and EnvelopeIsLawful that the envelope format meets it.
   */
  datatype Codec = Codec(
    valid: Metadata -> bool,
    encrypt: (Metadata, Plan, Bytes) -> Option<Bytes>,
    decrypt: (Metadata, Plan, Bytes) -> Option<Bytes>,
    receipt: Bytes -> Receipt,
    matches: (Metadata, Bytes) -> bool,
    plan: (Metadata, Bytes, Bytes) -> Plan)

  /** The metadata an artifact was reserved with. */
  function Reservation(m: Metadata): Metadata {
    m.(state := Reserved, availableAt := None, tombstonedAt := None, purgedAt := None)
  }

  ghost predicate Lawful(c: Codec) {
    && (forall m, n, plan, p, b {:trigger c.encrypt(m, plan, p), c.decrypt(n, plan, b)} ::
          c.valid(m) && c.valid(n) && Reservation(m) == Reservation(n) ==>
            (c.encrypt(m, plan, p) == Some(b) <==> c.decrypt(n, plan, b) == Some(p)))
    && (forall m, plan, a, b {:trigger c.decrypt(m, plan, a), c.decrypt(m, plan, b)} ::
          c.decrypt(m, plan, a).Some? && c.decrypt(m, plan, b).Some? ==> a == b)
    && (forall m, plan, b {:trigger c.decrypt(m, plan, b)} ::
          c.decrypt(m, plan, b).Some? ==>
            c.matches(m, c.decrypt(m, plan, b).value) && c.receipt(b).sizeBytes == m.contentReference.sizeBytes + OBJECT_OVERHEAD)
    && (forall b {:trigger c.receipt(b)} :: c.receipt(b).sizeBytes == |b|)
    && (forall m {:trigger c.valid(Reservation(m))} :: c.valid(m) ==> c.valid(Reservation(m)))
    && (forall m, at {:trigger c.valid(Activated(m, at))} ::
          c.valid(m) && m.state == Reserved && m.createdAt <= at ==> c.valid(Activated(m, at)))
  }

  function Activated(m: Metadata, at: Time): Metadata { m.(availableAt := Some(at), state := Available) }

  datatype Process =
    | ReserveFound(metadata: Metadata, existing: Option<CatalogEntry>)
    | UploadFound(entry: CatalogEntry, content: Bytes)
    | UploadStored(entry: CatalogEntry, receipt: Receipt, availableAt: Time)
    | UploadConflicted(entry: CatalogEntry)            // ArtifactObjectConflictError was thrown
    | ReconcileListed(entry: CatalogEntry, occurredAt: Time)
    | ReconcileRead(entry: CatalogEntry, occurredAt: Time, bytes: Bytes)
    | PurgeFound(entry: CatalogEntry)
    | PurgeDeleted(entry: CatalogEntry, objectWasPresent: bool)

  datatype World = World(
    entries: Entries,
    objects: Objects,
    issued: map<ObjectKey, Key>,   // which artifact each object key was generated for
    processes: map<nat, Process>,
    now: Time)

  datatype Step =
    | Tick(elapsed: nat)
    | Crash(p: nat)
    | ReserveFind(p: nat, metadata: Metadata)
    | ReserveCommit(p: nat, principalId: Id, dataKey: Bytes, nonce: Bytes, freshKey: ObjectKey)
    | UploadFind(p: nat, scope: Scope, artifactId: Id, content: Bytes)
    | UploadPut(p: nat, inspectionAccepts: bool)
    | UploadActivate(p: nat)
    | ReconcileList(p: nat, scope: Scope, artifactId: Id, threshold: Time, occurredAt: Time)
    | ReconcileGet(p: nat)
    | ReconcileActivate(p: nat)
    | TombstoneStep(scope: Scope, tombstone: Tombstone)
    | PurgeFind(p: nat, scope: Scope, artifactId: Id)
    | PurgeDelete(p: nat)
    | PurgeRecord(p: nat, occurredAt: Time, purgeId: Id)
    | ClaimStep(ownership: Ownership)
    | RevokeStep(scope: Scope, tombstone: Tombstone)

  function Start(now: Time): World { World(map[], map[], map[], map[], now) }

  // ---------------------------------------------------------------- one step

  function Become(w: World, p: nat, q: Process): World { w.(processes := w.processes[p := q]) }

  function Finish(w: World, p: nat): World { w.(processes := w.processes - {p}) }

  /**
    requestMetadata has stamped `createdAt` with a time read before the find was awaited; an expiry
    that is not later is refused for a new artifact.
   */
  function ReserveFindStep(c: Codec, w: World, p: nat, m: Metadata): World {
    var existing := Find(w.entries, m.scope, m.contentReference.artifactId);
    if p in w.processes || !c.valid(m) || m != Reservation(m) || m.createdAt > w.now then w
    else if existing.None? && m.retention.Expire? && m.retention.expiresAt.key <= m.createdAt then w
    else Become(w, p, ReserveFound(m, existing))
  }

  /** The candidate reuses the plan and key it found, or brings a new plan and a key never used. */
  function Candidate(c: Codec, q: Process, principalId: Id, dataKey: Bytes, nonce: Bytes, freshKey: ObjectKey): CatalogEntry
    requires q.ReserveFound?
  {
    match q.existing
    case Some(e) => CatalogEntry(e.createdByPrincipalId, e.plan, q.metadata, e.objectKey, None, None)
    case None => CatalogEntry(principalId, c.plan(q.metadata, dataKey, nonce), q.metadata, freshKey, None, None)
  }

  function ReserveCommitStep(c: Codec, w: World, p: nat, principalId: Id, dataKey: Bytes, nonce: Bytes,
      freshKey: ObjectKey): World {
    if p !in w.processes || !w.processes[p].ReserveFound? || freshKey in w.issued then w
    else
      var candidate := Candidate(c, w.processes[p], principalId, dataKey, nonce, freshKey);
      Finish(Insert(w, candidate), p)
  }

  function Insert(w: World, candidate: CatalogEntry): World {
    var k := KeyOf(candidate);
    w.(entries := Reserve(w.entries, candidate).entries,
       issued := if k in w.entries then w.issued else w.issued[candidate.objectKey := k])
  }

  function UploadFindStep(w: World, p: nat, scope: Scope, artifactId: Id, content: Bytes): World {
    var found := Find(w.entries, scope, artifactId);
    if p in w.processes || found.None? || StateRank(found.value.metadata.state) > 1 then w
    else Become(w, p, UploadFound(found.value, content))
  }

  /** Encrypt, inspect, put if absent, compare receipts, read the clock. */
  function UploadPutStep(c: Codec, w: World, p: nat, inspectionAccepts: bool): World {
    if p !in w.processes || !w.processes[p].UploadFound? then w else
    var e := w.processes[p].entry;
    var encrypted := c.encrypt(e.metadata, e.plan, w.processes[p].content);
    if encrypted.None? || !inspectionAccepts then Finish(w, p) else
    var v := PutIfAbsent(w, e.objectKey, encrypted.value);
    if c.receipt(v.objects[e.objectKey]) != c.receipt(encrypted.value) then Become(v, p, UploadConflicted(e))
    else Become(v, p, UploadStored(e, c.receipt(encrypted.value), w.now))
  }

  function PutIfAbsent(w: World, key: ObjectKey, bytes: Bytes): (v: World)
    ensures key in v.objects
  {
    if key in w.objects then w else w.(objects := w.objects[key := bytes])
  }

  function ActivateFor(w: World, e: CatalogEntry, receipt: Receipt, at: Time): World {
    w.(entries := Activate(w.entries, e.metadata.scope, e.metadata.contentReference.artifactId, receipt, at).entries)
  }

  function UploadActivateStep(w: World, p: nat): World {
    if p !in w.processes || !w.processes[p].UploadStored? then w
    else
      var q := w.processes[p];
      Finish(ActivateFor(w, q.entry, q.receipt, q.availableAt), p)
  }

  /** One candidate of a reconciliation pass; the threshold is at least an hour before the pass. */
  function ReconcileListStep(w: World, p: nat, scope: Scope, artifactId: Id, threshold: Time, occurredAt: Time): World {
    var found := Find(w.entries, scope, artifactId);
    if p in w.processes || found.None? || found.value.metadata.state != Reserved
       || found.value.metadata.createdAt > threshold || threshold > occurredAt then w
    else Become(w, p, ReconcileListed(found.value, occurredAt))
  }

  function ReconcileGetStep(w: World, p: nat): World {
    if p !in w.processes || !w.processes[p].ReconcileListed? then w else
    var q := w.processes[p];
    if q.entry.objectKey !in w.objects then Finish(w, p)
    else Become(w, p, ReconcileRead(q.entry, q.occurredAt, w.objects[q.entry.objectKey]))
  }

  function ReconcileActivateStep(c: Codec, w: World, p: nat): World {
    if p !in w.processes || !w.processes[p].ReconcileRead? then w else
    var q := w.processes[p];
    if c.decrypt(q.entry.metadata, q.entry.plan, q.bytes).None? then Finish(w, p)
    else Finish(ActivateFor(w, q.entry, c.receipt(q.bytes), q.occurredAt), p)
  }

  function PurgeFindStep(w: World, p: nat, scope: Scope, artifactId: Id): World {
    var found := Find(w.entries, scope, artifactId);
    if p in w.processes || found.None? || found.value.metadata.state != Tombstoned then w
    else Become(w, p, PurgeFound(found.value))
  }

  function PurgeDeleteStep(w: World, p: nat): World {
    if p !in w.processes || !w.processes[p].PurgeFound? then w else
    var e := w.processes[p].entry;
    Become(w.(objects := w.objects - {e.objectKey}), p, PurgeDeleted(e, e.objectKey in w.objects))
  }

  function PurgeRecordStep(w: World, p: nat, occurredAt: Time, purgeId: Id): World {
    if p !in w.processes || !w.processes[p].PurgeDeleted? then w else
    var q := w.processes[p];
    var artifactId := q.entry.metadata.contentReference.artifactId;
    var receipt := PurgeReceipt(artifactId, q.objectWasPresent, occurredAt, purgeId);
    Finish(w.(entries := RecordPurge(w.entries, q.entry.metadata.scope, receipt).entries), p)
  }

  /** A step that is not enabled changes nothing. */
  function Next(c: Codec, w: World, step: Step): World {
    match step
    case Tick(elapsed) => w.(now := w.now + elapsed)
    case Crash(p) => Finish(w, p)
    case ReserveFind(p, m) => ReserveFindStep(c, w, p, m)
    case ReserveCommit(p, principalId, dataKey, nonce, freshKey) => ReserveCommitStep(c, w, p, principalId, dataKey, nonce, freshKey)
    case UploadFind(p, scope, artifactId, content) => UploadFindStep(w, p, scope, artifactId, content)
    case UploadPut(p, accepts) => UploadPutStep(c, w, p, accepts)
    case UploadActivate(p) => UploadActivateStep(w, p)
    case ReconcileList(p, scope, artifactId, threshold, at) => ReconcileListStep(w, p, scope, artifactId, threshold, at)
    case ReconcileGet(p) => ReconcileGetStep(w, p)
    case ReconcileActivate(p) => ReconcileActivateStep(c, w, p)
    case TombstoneStep(scope, t) => w.(entries := TombstoneEntry(w.entries, scope, t).entries)
    case PurgeFind(p, scope, artifactId) => PurgeFindStep(w, p, scope, artifactId)
    case PurgeDelete(p) => PurgeDeleteStep(w, p)
    case PurgeRecord(p, at, purgeId) => PurgeRecordStep(w, p, at, purgeId)
    case ClaimStep(o) => w.(entries := Claim(w.entries, o).entries)
    case RevokeStep(scope, t) => w.(entries := TombstoneOwned(w.entries, scope, t).entries)
  }

  function Run(c: Codec, w: World, schedule: seq<Step>): World
    decreases |schedule|
  {
    if schedule == [] then w else Run(c, Next(c, w, schedule[0]), schedule[1..])
  }

  // ---------------------------------------------------------------- what every run keeps

  function Lookup<K, V>(m: map<K, V>, k: K): Option<V> { if k in m then Some(m[k]) else None }

  predicate Gone(e: CatalogEntry) { e.metadata.state == Tombstoned || e.metadata.state == Purged }

  /** `e` may have become `f`: the state only advances and whatever identifies the content is kept. */
  predicate Later(e: CatalogEntry, f: CatalogEntry) {
    && e.createdByPrincipalId == f.createdByPrincipalId
    && e.plan == f.plan
    && e.objectKey == f.objectKey
    && Reservation(e.metadata) == Reservation(f.metadata)
    && StateRank(e.metadata.state) <= StateRank(f.metadata.state)
    && (e.metadata.state == f.metadata.state ==> e.metadata == f.metadata && e.receipt == f.receipt)
    && (e.receipt.Some? ==> f.receipt == e.receipt)
    && (e.ownership.Some? ==> f.ownership == e.ownership)
  }

  /**
    An entry stays and only advances, its tombstone and purge receipt are permanent, and its object
    stays as it is until the artifact has been tombstoned.
   */
  predicate EntryEvolves(w: World, v: World, k: Key)
    requires k in w.entries
  {
    var e := w.entries[k].entry;
    && k in v.entries
    && Later(e, v.entries[k].entry)
    && (w.entries[k].tombstone.Some? ==> v.entries[k].tombstone == w.entries[k].tombstone)
    && (w.entries[k].purge.Some? ==> v.entries[k].purge == w.entries[k].purge)
    && (e.objectKey in w.objects && !Gone(v.entries[k].entry) ==> Lookup(v.objects, e.objectKey) == Lookup(w.objects, e.objectKey))
  }

  /** All that any run can do to the two stores. */
  predicate Evolves(w: World, v: World) {
    w.now <= v.now && forall k | k in w.entries :: EntryEvolves(w, v, k)
  }

  /** One catalog row together with its object and the artifact its object key was made for. */
  predicate RowOk(c: Codec, k: Key, s: Stored, bytes: Option<Bytes>, owner: Option<Key>, now: Time) {
    var e := s.entry;
    && KeyOf(e) == k
    && owner == Some(k)
    && c.valid(Reservation(e.metadata))
    && e.metadata.createdAt <= now
    && (!Gone(e) ==> c.valid(e.metadata))
    && (s.tombstone.Some? <==> Gone(e))
    && (s.purge.Some? <==> e.metadata.state == Purged)
    && (e.metadata.state == Reserved ==> e.receipt.None? && e.metadata == Reservation(e.metadata))
    && (bytes.Some? ==> c.decrypt(Reservation(e.metadata), e.plan, bytes.value).Some?)
    && (e.metadata.state == Available ==> bytes.Some? && e.receipt == Some(c.receipt(bytes.value)))
  }

  predicate EntryOk(c: Codec, w: World, k: Key)
    requires k in w.entries
  {
    var s := w.entries[k];
    RowOk(c, k, s, Lookup(w.objects, s.entry.objectKey), Lookup(w.issued, s.entry.objectKey), w.now)
  }

  /** No object without an entry. */
  predicate ObjectOk(w: World, o: ObjectKey) {
    o in w.issued && w.issued[o] in w.entries && w.entries[w.issued[o]].entry.objectKey == o
  }

  predicate StoresOk(c: Codec, w: World) {
    && (forall k | k in w.entries :: EntryOk(c, w, k))
    && (forall o | o in w.objects :: ObjectOk(w, o))
  }

  /** A captured entry is what the catalog held at some earlier moment. */
  predicate Snapshot(w: World, e: CatalogEntry) {
    KeyOf(e) in w.entries && Later(e, w.entries[KeyOf(e)].entry)
  }

  predicate IsGone(w: World, k: Key) { k in w.entries && Gone(w.entries[k].entry) }

  predicate ProcessOk(c: Codec, w: World, q: Process) {
    match q
    case ReserveFound(m, existing) =>
      && c.valid(m) && m.state == Reserved && m.createdAt <= w.now && m == Reservation(m)
      && (existing.Some? ==> Key(m.scope.tenantId, m.contentReference.artifactId) in w.entries)
    case UploadFound(e, content) => Snapshot(w, e) && !Gone(e) && c.valid(e.metadata)
    case UploadStored(e, receipt, at) =>
      && Snapshot(w, e) && !Gone(e) && e.metadata.createdAt <= at
      && (IsGone(w, KeyOf(e)) || (e.objectKey in w.objects && c.receipt(w.objects[e.objectKey]) == receipt))
    case UploadConflicted(e) => false
    case ReconcileListed(e, at) => Snapshot(w, e) && !Gone(e) && c.valid(e.metadata) && e.metadata.createdAt <= at
    case ReconcileRead(e, at, bytes) =>
      && Snapshot(w, e) && !Gone(e) && c.valid(e.metadata) && e.metadata.createdAt <= at
      && (IsGone(w, KeyOf(e)) || Lookup(w.objects, e.objectKey) == Some(bytes))
    case PurgeFound(e) => Snapshot(w, e) && Gone(e)
    case PurgeDeleted(e, present) => Snapshot(w, e) && Gone(e)
  }

  predicate Inv(c: Codec, w: World) {
    StoresOk(c, w) && forall p | p in w.processes :: ProcessOk(c, w, w.processes[p])
  }
}
