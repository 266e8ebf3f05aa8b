/**
  The use cases of an artifact as their callers run them: ordered effects on the two stores, with
  other processes running at every `await`.  Each is shown to be exactly its steps of the protocol,
  so every promise of the protocol holds of it, and to return what its caller is told.
 */
module UseCases {
  import opened Prelude
  import J = Json
  import opened ArtifactContract
  import opened Envelope
  import opened Catalog
  import opened Protocol
  import opened ProtocolSafety
  import opened Lifecycle
  import opened Stores

  datatype CallError =
    | CallNotFound
    | CallStateTransition
    | CallUnavailable
    | CallForbidden
    | CallRefused              // encryption refused the content or inspection rejected it
    | CallObjectConflict
    | CallObjectMissing
    | CallProtection
    | CallCatalog(error: Error)

  /** What a call leaves behind and what it returns. */
  datatype Call<T> = Call(world: World, result: Result<T, CallError>)

  // ---------------------------------------------------------------- upload

  function UploadSteps(p: nat, scope: Scope, artifactId: Id, content: Bytes, accepts: bool, g1: seq<Step>,
      g2: seq<Step>): seq<Step> {
    [UploadFind(p, scope, artifactId, content)] + g1 + [UploadPut(p, accepts)] + g2 + [UploadActivate(p)]
  }

  /** From the put on: `e` and `content` were captured before the others ran. */
  function UploadStore(c: Codec, w: World, e: CatalogEntry, bytes: Bytes, g2: seq<Step>): Call<Metadata> {
    var v := PutIfAbsent(w, e.objectKey, bytes);
    if c.receipt(v.objects[e.objectKey]) != c.receipt(bytes) then Call(v, Err(CallObjectConflict))
    else UploadFinish(Run(c, v, g2), e, c.receipt(bytes), w.now)
  }

  function UploadFinish(w: World, e: CatalogEntry, receipt: Receipt, at: Time): Call<Metadata> {
    var o := Catalog.Activate(w.entries, e.metadata.scope, e.metadata.contentReference.artifactId, receipt, at);
    Call(w.(entries := o.entries),
         match o.result
         case Ok(activated) => Ok(activated.metadata)
         case Err(StateTransition) => Err(CallStateTransition)
         case Err(error) => Err(CallCatalog(error)))
  }

  /** UploadArtifact.execute while the others take the steps `g1` before its put and `g2` after it. */
  function UploadCall(c: Codec, w: World, scope: Scope, artifactId: Id, content: Bytes, accepts: bool, g1: seq<Step>,
      g2: seq<Step>): Call<Metadata> {
    match Catalog.Find(w.entries, scope, artifactId)
    case None => Call(w, Err(CallNotFound))
    case Some(e) =>
      if e.metadata.state != Reserved && e.metadata.state != Available then Call(w, Err(CallStateTransition)) else
      match c.encrypt(e.metadata, e.plan, content)
      case None => Call(Run(c, w, g1), Err(CallRefused))
      case Some(bytes) =>
        if !accepts then Call(Run(c, w, g1), Err(CallRefused)) else UploadStore(c, Run(c, w, g1), e, bytes, g2)
  }

  /** A process that captures `q`, waits for the others, and then moves. */
  lemma CaptureAndWait(c: Codec, w: World, first: Step, others: seq<Step>, p: nat, q: Process)
    requires p !in w.processes && Others(others, p) && Next(c, w, first) == Become(w, p, q)
    ensures Run(c, w, [first] + others) == Become(Run(c, w, others), p, q)
    ensures p !in Run(c, w, others).processes
  {
    RunConcat(c, w, [first], others);
    RunOne(c, w, first);
    RunIgnores(c, w, others, p, q);
  }

  lemma UploadRefused(c: Codec, w: World, p: nat, q: Process, accepts: bool)
    requires p !in w.processes && q.UploadFound?
    requires c.encrypt(q.entry.metadata, q.entry.plan, q.content).None? || !accepts
    ensures UploadPutStep(c, Become(w, p, q), p, accepts) == w
  {
    BecomeFinish(w, p, q);
  }

  lemma UploadAccepted(c: Codec, w: World, p: nat, q: Process)
    requires p !in w.processes && q.UploadFound?
    requires c.encrypt(q.entry.metadata, q.entry.plan, q.content).Some?
    ensures var e := q.entry;
            var bytes := c.encrypt(e.metadata, e.plan, q.content).value;
            var v := PutIfAbsent(w, e.objectKey, bytes);
            c.receipt(v.objects[e.objectKey]) == c.receipt(bytes) ==>
              UploadPutStep(c, Become(w, p, q), p, true) == Become(v, p, UploadStored(e, c.receipt(bytes), w.now))
  {
    var e := q.entry;
    var bytes := c.encrypt(e.metadata, e.plan, q.content).value;
    var v := PutIfAbsent(w, e.objectKey, bytes);
    if c.receipt(v.objects[e.objectKey]) == c.receipt(bytes) {
      assert w.processes[p := q][p := UploadStored(e, c.receipt(bytes), w.now)] == w.processes[p := UploadStored(e, c.receipt(bytes), w.now)];
    }
  }

  lemma UploadActivated(w: World, p: nat, e: CatalogEntry, receipt: Receipt, at: Time)
    requires p !in w.processes
    ensures UploadActivateStep(Become(w, p, UploadStored(e, receipt, at)), p) == ActivateFor(w, e, receipt, at)
  {
    BecomeFinish(ActivateFor(w, e, receipt, at), p, UploadStored(e, receipt, at));
  }

  lemma UploadFoundNow(c: Codec, w: World, p: nat, scope: Scope, artifactId: Id, content: Bytes)
    requires p !in w.processes
    requires var f := Catalog.Find(w.entries, scope, artifactId); f.Some? && !Gone(f.value)
    ensures var f := Catalog.Find(w.entries, scope, artifactId);
            Next(c, w, UploadFind(p, scope, artifactId, content)) == Become(w, p, UploadFound(f.value, content))
  {
  }

  /** From the put on, the call is the protocol's put and activation, with the others in between. */
  lemma UploadStoreRefines(c: Codec, w: World, p: nat, e: CatalogEntry, content: Bytes, g2: seq<Step>)
    requires p !in w.processes && Others(g2, p) && c.encrypt(e.metadata, e.plan, content).Some?
    requires var bytes := c.encrypt(e.metadata, e.plan, content).value;
             c.receipt(PutIfAbsent(w, e.objectKey, bytes).objects[e.objectKey]) == c.receipt(bytes)
    ensures var bytes := c.encrypt(e.metadata, e.plan, content).value;
            UploadStore(c, w, e, bytes, g2).world ==
            Run(c, Become(w, p, UploadFound(e, content)), [UploadPut(p, true)] + g2 + [UploadActivate(p)])
  {
    var bytes := c.encrypt(e.metadata, e.plan, content).value;
    var v := PutIfAbsent(w, e.objectKey, bytes);
    var q := UploadStored(e, c.receipt(bytes), w.now);
    var u := Become(w, p, UploadFound(e, content));
    UploadAccepted(c, w, p, UploadFound(e, content));
    RunConcat(c, u, [UploadPut(p, true)] + g2, [UploadActivate(p)]);
    RunConcat(c, u, [UploadPut(p, true)], g2);
    RunOne(c, u, UploadPut(p, true));
    RunIgnores(c, v, g2, p, q);
    RunOne(c, Become(Run(c, v, g2), p, q), UploadActivate(p));
    UploadActivated(Run(c, v, g2), p, e, q.receipt, q.availableAt);
  }

  /** What the catalog answers an upload whose object is in place: only a tombstone can stop it. */
  lemma ActivateAnswer(c: Codec, w: World, e: CatalogEntry, receipt: Receipt, at: Time)
    requires StoresOk(c, w) && Snapshot(w, e)
    requires IsGone(w, KeyOf(e)) || (e.objectKey in w.objects && c.receipt(w.objects[e.objectKey]) == receipt)
    ensures var o := Catalog.Activate(w.entries, e.metadata.scope, e.metadata.contentReference.artifactId, receipt, at);
            && (IsGone(w, KeyOf(e)) ==> o.result == Err(StateTransition) && o.entries == w.entries)
            && (!IsGone(w, KeyOf(e)) ==>
                  && o.result.Ok? && KeyOf(e) in o.entries && o.entries[KeyOf(e)].entry == o.result.value
                  && o.result.value.metadata.state == Available && o.result.value.receipt == Some(receipt))
  {
    assert EntryOk(c, w, KeyOf(e));
  }


  /** A finished upload: the artifact is available and its stored object opens to `content`. */
  predicate Uploaded(c: Codec, w: World, k: Key, content: Bytes, m: Metadata) {
    && k in w.entries
    && w.entries[k].entry.metadata == m && m.state == Available
    && Holds(c, w, w.entries[k].entry)
    && c.decrypt(m, w.entries[k].entry.plan, w.objects[w.entries[k].entry.objectKey]) == Some(content)
  }

  lemma UploadFinishRight(c: Codec, w: World, e: CatalogEntry, content: Bytes, at: Time)
    requires Lawful(c) && Inv(c, w) && Snapshot(w, e) && c.valid(e.metadata) && e.metadata.createdAt <= at
    requires c.encrypt(e.metadata, e.plan, content).Some?
    requires IsGone(w, KeyOf(e)) || Lookup(w.objects, e.objectKey) == c.encrypt(e.metadata, e.plan, content)
    ensures var o := UploadFinish(w, e, c.receipt(c.encrypt(e.metadata, e.plan, content).value), at);
            && Inv(c, o.world)
            && (if IsGone(w, KeyOf(e)) then o.result == Err(CallStateTransition) && o.world == w
                else o.result.Ok? && Uploaded(c, o.world, KeyOf(e), content, o.result.value))
  {
    var bytes := c.encrypt(e.metadata, e.plan, content).value;
    var receipt := c.receipt(bytes);
    ActivateAnswer(c, w, e, receipt, at);
    ActivateKeeps(c, w, e, receipt, at);
    var v := ActivateFor(w, e, receipt, at);
    StoreStepKeeps(c, w, v);
    if !IsGone(w, KeyOf(e)) {
      assert EntryEvolves(w, v, KeyOf(e));
      ActivatedHolds(c, v, e, bytes, content);
    }
  }

  lemma ActivatedHolds(c: Codec, v: World, e: CatalogEntry, bytes: Bytes, content: Bytes)
    requires Lawful(c) && StoresOk(c, v) && Snapshot(v, e) && c.valid(e.metadata)
    requires c.encrypt(e.metadata, e.plan, content) == Some(bytes) && Lookup(v.objects, e.objectKey) == Some(bytes)
    requires v.entries[KeyOf(e)].entry.metadata.state == Available
    ensures Uploaded(c, v, KeyOf(e), content, v.entries[KeyOf(e)].entry.metadata)
  {
    RowHolds(c, v, KeyOf(e));
    assert EntryOk(c, v, KeyOf(e));
    var m := v.entries[KeyOf(e)].entry.metadata;
    assert c.decrypt(m, e.plan, bytes) == Some(content);
  }

  lemma UploadStoreRight(c: Codec, w: World, e: CatalogEntry, content: Bytes, g2: seq<Step>)
    requires Lawful(c) && Inv(c, w) && Snapshot(w, e) && c.valid(e.metadata)
    requires c.encrypt(e.metadata, e.plan, content).Some?
    ensures var bytes := c.encrypt(e.metadata, e.plan, content).value;
            var o := UploadStore(c, w, e, bytes, g2);
            && c.receipt(PutIfAbsent(w, e.objectKey, bytes).objects[e.objectKey]) == c.receipt(bytes)
            && Inv(c, o.world)
            && (if o.result.Ok? then Uploaded(c, o.world, KeyOf(e), content, o.result.value)
                else o.result == Err(CallStateTransition) && IsGone(o.world, KeyOf(e)))
  {
    var bytes := c.encrypt(e.metadata, e.plan, content).value;
    var v := PutIfAbsent(w, e.objectKey, bytes);
    PutKeeps(c, w, e, content);
    StoreStepKeeps(c, w, v);
    SnapshotStable(w, v, e);
    RunKeeps(c, v, g2);
    SnapshotStable(v, Run(c, v, g2), e);
    assert EntryOk(c, w, KeyOf(e));
    UploadFinishRight(c, Run(c, v, g2), e, content, w.now);
  }

  /**
    An upload returns only when the artifact is available with exactly this content.  It never meets
    a foreign object or a foreign receipt; it fails only because the artifact is unknown, because
    it is gone, or because the content is not the reserved one or was rejected.
   */
  lemma UploadCallRight(c: Codec, w: World, scope: Scope, artifactId: Id, content: Bytes, accepts: bool, g1: seq<Step>,
      g2: seq<Step>)
    requires Lawful(c) && Inv(c, w)
    ensures var o := UploadCall(c, w, scope, artifactId, content, accepts, g1, g2);
            var k := Key(scope.tenantId, artifactId);
            var f := Catalog.Find(w.entries, scope, artifactId);
            && Inv(c, o.world)
            && (o.result.Ok? ==> Uploaded(c, o.world, k, content, o.result.value))
            && (o.result.Err? ==>
                  match o.result.error
                  case CallNotFound => f.None?
                  case CallStateTransition => IsGone(o.world, k)
                  case CallRefused => f.Some? && (c.encrypt(f.value.metadata, f.value.plan, content).None? || !accepts)
                  case _ => false)
  {
    FoundSnapshot(c, w, scope, artifactId);
    match Catalog.Find(w.entries, scope, artifactId) {
      case None =>
      case Some(e) =>
        if !Gone(e) {
          RunKeeps(c, w, g1);
          SnapshotStable(w, Run(c, w, g1), e);
          if c.encrypt(e.metadata, e.plan, content).Some? && accepts {
            UploadStoreRight(c, Run(c, w, g1), e, content, g2);
          }
        }
    }
  }

  /**
    Exactly when an upload answers what, for an artifact that the catalog knows: content that
    encryption or inspection refuses is refused unless the artifact is gone already, and an accepted
    upload succeeds unless the artifact is gone by the end.
   */
  lemma UploadCallExactly(c: Codec, w: World, scope: Scope, artifactId: Id, content: Bytes, accepts: bool, g1: seq<Step>,
      g2: seq<Step>)
    requires Lawful(c) && Inv(c, w)
    ensures var o := UploadCall(c, w, scope, artifactId, content, accepts, g1, g2);
            var k := Key(scope.tenantId, artifactId);
            var f := Catalog.Find(w.entries, scope, artifactId);
            var refused := f.Some? && !IsGone(w, k) &&
                           (c.encrypt(f.value.metadata, f.value.plan, content).None? || !accepts);
            && (o.result == Err(CallNotFound) <==> f.None?)
            && (o.result == Err(CallRefused) <==> refused)
            && (o.result == Err(CallStateTransition) <==> f.Some? && !refused && IsGone(o.world, k))
            && (o.result.Ok? <==> f.Some? && !refused && !IsGone(o.world, k))
            && (refused ==> o.world == Run(c, w, g1))
            && (f.None? || IsGone(w, k) ==> o.world == w)
  {
    UploadCallRight(c, w, scope, artifactId, content, accepts, g1, g2);
    UploadAnswers(c, w, scope, artifactId, content, accepts, g1, g2);
  }

  /** An upload that finds its artifact still reserved makes it available as of the moment after its put. */
  lemma UploadStamps(c: Codec, w: World, e: CatalogEntry, bytes: Bytes, g2: seq<Step>)
    requires c.receipt(PutIfAbsent(w, e.objectKey, bytes).objects[e.objectKey]) == c.receipt(bytes)
    requires var v := Run(c, PutIfAbsent(w, e.objectKey, bytes), g2);
             Snapshot(v, e) && v.entries[KeyOf(e)].entry.metadata.state == Reserved
    ensures var o := UploadStore(c, w, e, bytes, g2);
            && o.result.Ok? && o.result.value.availableAt == Some(w.now) && o.result.value.state == Available
            && KeyOf(e) in o.world.entries && o.world.entries[KeyOf(e)].entry.metadata == o.result.value
            && o.world.entries[KeyOf(e)].entry.receipt == Some(c.receipt(bytes))
  {
  }

  lemma UploadAnswers(c: Codec, w: World, scope: Scope, artifactId: Id, content: Bytes, accepts: bool, g1: seq<Step>,
      g2: seq<Step>)
    requires Lawful(c) && Inv(c, w)
    ensures var o := UploadCall(c, w, scope, artifactId, content, accepts, g1, g2);
            var f := Catalog.Find(w.entries, scope, artifactId);
            && (f.None? ==> o == Call(w, Err(CallNotFound)))
            && (f.Some? && Gone(f.value) ==> o == Call(w, Err(CallStateTransition)))
            && (f.Some? && !Gone(f.value) && (c.encrypt(f.value.metadata, f.value.plan, content).None? || !accepts) ==>
                  o == Call(Run(c, w, g1), Err(CallRefused)))
            && (f.Some? && !Gone(f.value) && c.encrypt(f.value.metadata, f.value.plan, content).Some? && accepts ==>
                  o.result.Ok? || o.result == Err(CallStateTransition))
  {
    FoundSnapshot(c, w, scope, artifactId);
    var f := Catalog.Find(w.entries, scope, artifactId);
    if f.Some? && !Gone(f.value) && c.encrypt(f.value.metadata, f.value.plan, content).Some? && accepts {
      RunKeeps(c, w, g1);
      SnapshotStable(w, Run(c, w, g1), f.value);
      UploadStoreRight(c, Run(c, w, g1), f.value, content, g2);
    }
  }

  /** The call is a run of the protocol: its own steps in order, the others' in between. */
  lemma UploadCallRefines(c: Codec, w: World, p: nat, scope: Scope, artifactId: Id, content: Bytes, accepts: bool,
      g1: seq<Step>, g2: seq<Step>)
      returns (steps: seq<Step>)
    requires Lawful(c) && Inv(c, w) && p !in w.processes && Others(g1, p) && Others(g2, p)
    ensures steps <= UploadSteps(p, scope, artifactId, content, accepts, g1, g2)
    ensures var o := UploadCall(c, w, scope, artifactId, content, accepts, g1, g2);
            && o.world == Run(c, w, steps)
            && (o.result.Ok? ==> steps == UploadSteps(p, scope, artifactId, content, accepts, g1, g2))
  {
    var find := UploadFind(p, scope, artifactId, content);
    match Catalog.Find(w.entries, scope, artifactId) {
      case None => steps := [];
      case Some(e) =>
        if Gone(e) {
          steps := [];
        } else {
          FoundSnapshot(c, w, scope, artifactId);
          UploadFoundNow(c, w, p, scope, artifactId, content);
          CaptureAndWait(c, w, find, g1, p, UploadFound(e, content));
          steps := UploadRest(c, w, p, e, scope, artifactId, content, accepts, g1, g2);
        }
    }
  }

  lemma UploadRest(c: Codec, w: World, p: nat, e: CatalogEntry, scope: Scope, artifactId: Id, content: Bytes,
      accepts: bool, g1: seq<Step>, g2: seq<Step>)
      returns (steps: seq<Step>)
    requires Lawful(c) && Inv(c, w) && Others(g2, p) && Snapshot(w, e) && c.valid(e.metadata) && !Gone(e)
    requires Catalog.Find(w.entries, scope, artifactId) == Some(e)
    requires var w1 := Run(c, w, g1);
             p !in w1.processes && Run(c, w, [UploadFind(p, scope, artifactId, content)] + g1) == Become(w1, p, UploadFound(e, content))
    ensures steps <= UploadSteps(p, scope, artifactId, content, accepts, g1, g2)
    ensures var o := UploadCall(c, w, scope, artifactId, content, accepts, g1, g2);
            && o.world == Run(c, w, steps)
            && (o.result.Ok? ==> steps == UploadSteps(p, scope, artifactId, content, accepts, g1, g2))
  {
    var w1 := Run(c, w, g1);
    var captured := [UploadFind(p, scope, artifactId, content)] + g1;
    UploadStepsSplit(p, scope, artifactId, content, accepts, g1, g2);
    if c.encrypt(e.metadata, e.plan, content).Some? && accepts {
      steps := captured + ([UploadPut(p, true)] + g2 + [UploadActivate(p)]);
      RunKeeps(c, w, g1);
      SnapshotStable(w, w1, e);
      UploadAcceptedRuns(c, w, p, e, captured, w1, content, g2);
    } else {
      steps := captured + [UploadPut(p, accepts)];
      UploadRefusedRuns(c, w, p, e, captured, w1, content, accepts);
    }
  }

  lemma UploadStepsSplit(p: nat, scope: Scope, artifactId: Id, content: Bytes, accepts: bool, g1: seq<Step>, g2: seq<Step>)
    ensures var captured := [UploadFind(p, scope, artifactId, content)] + g1;
            var steps := UploadSteps(p, scope, artifactId, content, accepts, g1, g2);
            && steps == captured + ([UploadPut(p, accepts)] + g2 + [UploadActivate(p)])
            && captured + [UploadPut(p, accepts)] <= steps
  {
    var captured := [UploadFind(p, scope, artifactId, content)] + g1;
    assert UploadSteps(p, scope, artifactId, content, accepts, g1, g2) ==
           captured + [UploadPut(p, accepts)] + (g2 + [UploadActivate(p)]);
  }

  lemma UploadAcceptedRuns(c: Codec, w: World, p: nat, e: CatalogEntry, captured: seq<Step>, w1: World, content: Bytes,
      g2: seq<Step>)
    requires Lawful(c) && Inv(c, w1) && Others(g2, p) && Snapshot(w1, e) && c.valid(e.metadata) && p !in w1.processes
    requires Run(c, w, captured) == Become(w1, p, UploadFound(e, content)) && c.encrypt(e.metadata, e.plan, content).Some?
    ensures Run(c, w, captured + ([UploadPut(p, true)] + g2 + [UploadActivate(p)])) ==
            UploadStore(c, w1, e, c.encrypt(e.metadata, e.plan, content).value, g2).world
  {
    UploadStoreRight(c, w1, e, content, g2);
    UploadStoreRefines(c, w1, p, e, content, g2);
    RunConcat(c, w, captured, [UploadPut(p, true)] + g2 + [UploadActivate(p)]);
  }

  lemma UploadRefusedRuns(c: Codec, w: World, p: nat, e: CatalogEntry, captured: seq<Step>, w1: World, content: Bytes,
      accepts: bool)
    requires Run(c, w, captured) == Become(w1, p, UploadFound(e, content)) && p !in w1.processes
    requires c.encrypt(e.metadata, e.plan, content).None? || !accepts
    ensures Run(c, w, captured + [UploadPut(p, accepts)]) == w1
  {
    RunConcat(c, w, captured, [UploadPut(p, accepts)]);
    RunOne(c, Become(w1, p, UploadFound(e, content)), UploadPut(p, accepts));
    UploadRefused(c, w1, p, UploadFound(e, content), accepts);
  }

  // ---------------------------------------------------------------- purge

  function PurgeSteps(p: nat, scope: Scope, artifactId: Id, at: Time, purgeId: Id, g1: seq<Step>, g2: seq<Step>): seq<Step> {
    [PurgeFind(p, scope, artifactId)] + g1 + [PurgeDelete(p)] + g2 + [PurgeRecord(p, at, purgeId)]
  }

  function DeleteObject(w: World, key: ObjectKey): World { w.(objects := w.objects - {key}) }

  function PurgeFinish(w: World, e: CatalogEntry, present: bool, at: Time, purgeId: Id): Call<Metadata> {
    var receipt := PurgeReceipt(e.metadata.contentReference.artifactId, present, at, purgeId);
    var o := Catalog.RecordPurge(w.entries, e.metadata.scope, receipt);
    Call(w.(entries := o.entries),
         match o.result
         case Ok(purged) => Ok(purged.metadata)
         case Err(StateTransition) => Err(CallStateTransition)
         case Err(error) => Err(CallCatalog(error)))
  }

  /** PurgeArtifact.execute while the others take `g1` before its delete and `g2` after it. */
  function PurgeCall(c: Codec, w: World, scope: Scope, artifactId: Id, purgeId: Id, g1: seq<Step>,
      g2: seq<Step>): Call<Metadata> {
    match Catalog.Find(w.entries, scope, artifactId)
    case None => Call(w, Err(CallNotFound))
    case Some(e) =>
      if e.metadata.state == Purged then Call(w, Ok(e.metadata))
      else if e.metadata.state != Tombstoned then Call(w, Err(CallStateTransition))
      else
        var w1 := Run(c, w, g1);
        PurgeFinish(Run(c, DeleteObject(w1, e.objectKey), g2), e, e.objectKey in w1.objects, w1.now, purgeId)
  }

  lemma PurgeFinishRight(c: Codec, w: World, e: CatalogEntry, present: bool, at: Time, purgeId: Id)
    requires Inv(c, w) && Snapshot(w, e) && Gone(e)
    ensures var o := PurgeFinish(w, e, present, at, purgeId);
            Inv(c, o.world) && o.result.Ok? && IsPurged(o.world, KeyOf(e)) && o.result.value == o.world.entries[KeyOf(e)].entry.metadata
  {
    var receipt := PurgeReceipt(e.metadata.contentReference.artifactId, present, at, purgeId);
    var v := PurgeFinish(w, e, present, at, purgeId).world;
    RecordKeeps(c, w, e.metadata.scope, receipt);
    StoreStepKeeps(c, w, v);
    assert EntryOk(c, w, KeyOf(e));
  }

  /**
    A purge succeeds exactly when its first look finds the artifact tombstoned or purged: nothing
    that happens while it waits can make it fail, and it returns with the purge recorded.
   */
  lemma PurgeCallRight(c: Codec, w: World, scope: Scope, artifactId: Id, purgeId: Id, g1: seq<Step>, g2: seq<Step>)
    requires Lawful(c) && Inv(c, w)
    ensures var o := PurgeCall(c, w, scope, artifactId, purgeId, g1, g2);
            var f := Catalog.Find(w.entries, scope, artifactId);
            && Inv(c, o.world)
            && (o.result.Ok? <==> f.Some? && Gone(f.value))
            && (o.result.Ok? ==>
                  var k := Key(scope.tenantId, artifactId);
                  IsPurged(o.world, k) && o.result.value == o.world.entries[k].entry.metadata)
            && (o.result == Err(CallNotFound) <==> f.None?)
  {
    FoundSnapshot(c, w, scope, artifactId);
    match Catalog.Find(w.entries, scope, artifactId) {
      case None =>
      case Some(e) =>
        if e.metadata.state == Tombstoned {
          var w1 := Run(c, w, g1);
          var v := DeleteObject(w1, e.objectKey);
          RunKeeps(c, w, g1);
          SnapshotStable(w, w1, e);
          DeleteKeeps(c, w1, e);
          StoreStepKeeps(c, w1, v);
          RunKeeps(c, v, g2);
          SnapshotStable(w1, v, e);
          SnapshotStable(v, Run(c, v, g2), e);
          PurgeFinishRight(c, Run(c, v, g2), e, e.objectKey in w1.objects, w1.now, purgeId);
        }
    }
  }

  /**
    What a purge leaves behind: unless another purge was recorded meanwhile, its own receipt, which
    tells whether there was an object to delete and when; and no object, if nobody acts after its
    delete.
   */
  lemma PurgeCallRecords(c: Codec, w: World, scope: Scope, artifactId: Id, purgeId: Id, g1: seq<Step>, g2: seq<Step>)
    requires Lawful(c) && Inv(c, w)
    requires var f := Catalog.Find(w.entries, scope, artifactId); f.Some? && f.value.metadata.state == Tombstoned
    ensures var o := PurgeCall(c, w, scope, artifactId, purgeId, g1, g2);
            var k := Key(scope.tenantId, artifactId);
            var w1 := Run(c, w, g1);
            && k in w1.entries && k in o.world.entries
            && (g2 == [] ==> !HasObject(o.world, k))
            && var w2 := Run(c, w1.(objects := w1.objects - {w1.entries[k].entry.objectKey}), g2);
               if IsPurged(w2, k) then o.world == w2
               else
                 && o.world.entries[k].entry.metadata.purgedAt == Some(w1.now)
                 && o.world.entries[k].purge == Some(PurgeReceipt(artifactId, HasObject(w1, k), w1.now, purgeId))
  {
    var e := Catalog.Find(w.entries, scope, artifactId).value;
    var w1 := Run(c, w, g1);
    var v := DeleteObject(w1, e.objectKey);
    FoundSnapshot(c, w, scope, artifactId);
    RunKeeps(c, w, g1);
    SnapshotStable(w, w1, e);
    DeleteKeeps(c, w1, e);
    StoreStepKeeps(c, w1, v);
    RunKeeps(c, v, g2);
    SnapshotStable(w1, v, e);
    SnapshotStable(v, Run(c, v, g2), e);
    PurgeFinishRecords(Run(c, v, g2), e, e.objectKey in w1.objects, w1.now, purgeId);
  }

  lemma PurgeFinishRecords(w: World, e: CatalogEntry, present: bool, at: Time, purgeId: Id)
    requires Snapshot(w, e) && Gone(e)
    ensures var k := KeyOf(e);
            var o := PurgeFinish(w, e, present, at, purgeId);
            && k in o.world.entries && o.world.objects == w.objects && o.world.entries[k].entry.objectKey == e.objectKey
            && (if IsPurged(w, k) then o.world == w
                else
                  && o.world.entries[k].entry.metadata.purgedAt == Some(at)
                  && o.world.entries[k].purge == Some(PurgeReceipt(e.metadata.contentReference.artifactId, present, at, purgeId)))
  {
  }

  /** A purge that does not succeed found no record, or one that is not tombstoned. */
  lemma PurgeCallRefusals(c: Codec, w: World, scope: Scope, artifactId: Id, purgeId: Id, g1: seq<Step>, g2: seq<Step>)
    ensures var o := PurgeCall(c, w, scope, artifactId, purgeId, g1, g2);
            var f := Catalog.Find(w.entries, scope, artifactId);
            && (f.None? ==> o == Call(w, Err(CallNotFound)))
            && (f.Some? && (f.value.metadata.state == Reserved || f.value.metadata.state == Available) ==>
                  o == Call(w, Err(CallStateTransition)))
            && (f.Some? && f.value.metadata.state == Purged ==> o == Call(w, Ok(f.value.metadata)))
  {
  }

  lemma PurgeDeletes(c: Codec, w: World, p: nat, e: CatalogEntry)
    requires p !in w.processes
    ensures Next(c, Become(w, p, PurgeFound(e)), PurgeDelete(p)) ==
            Become(DeleteObject(w, e.objectKey), p, PurgeDeleted(e, e.objectKey in w.objects))
  {
    PurgeDeletedAlone(w, p, e);
  }

  lemma PurgeRecords(c: Codec, w: World, p: nat, e: CatalogEntry, present: bool, at: Time, purgeId: Id)
    requires p !in w.processes
    ensures Next(c, Become(w, p, PurgeDeleted(e, present)), PurgeRecord(p, at, purgeId)) == PurgeFinish(w, e, present, at, purgeId).world
  {
    BecomeFinish(PurgeFinish(w, e, present, at, purgeId).world, p, PurgeDeleted(e, present));
  }

  /** Three own steps with the others in between: only the captured process and the stores matter. */
  lemma ThreeSteps(c: Codec, w: World, p: nat, first: Step, g1: seq<Step>, q: Process, second: Step, v: World,
      x: Process, g2: seq<Step>, third: Step)
    requires p !in w.processes && Others(g1, p) && Others(g2, p) && p !in v.processes
    requires Next(c, w, first) == Become(w, p, q)
    requires Next(c, Become(Run(c, w, g1), p, q), second) == Become(v, p, x)
    ensures Run(c, w, [first] + g1 + [second] + g2 + [third]) == Next(c, Become(Run(c, v, g2), p, x), third)
    ensures p !in Run(c, v, g2).processes
  {
    CaptureAndWait(c, w, first, g1, p, q);
    RunConcat(c, w, [first] + g1, [second]);
    RunOne(c, Become(Run(c, w, g1), p, q), second);
    RunConcat(c, w, [first] + g1 + [second], g2);
    RunIgnores(c, v, g2, p, x);
    RunConcat(c, w, [first] + g1 + [second] + g2, [third]);
    RunOne(c, Become(Run(c, v, g2), p, x), third);
  }

  lemma PurgeRuns(c: Codec, w: World, p: nat, e: CatalogEntry, find: Step, purgeId: Id, g1: seq<Step>, g2: seq<Step>)
    requires p !in w.processes && Others(g1, p) && Others(g2, p) && Next(c, w, find) == Become(w, p, PurgeFound(e))
    ensures var w1 := Run(c, w, g1);
            Run(c, w, [find] + g1 + [PurgeDelete(p)] + g2 + [PurgeRecord(p, w1.now, purgeId)]) ==
            PurgeFinish(Run(c, DeleteObject(w1, e.objectKey), g2), e, e.objectKey in w1.objects, w1.now, purgeId).world
  {
    var w1 := Run(c, w, g1);
    var v := DeleteObject(w1, e.objectKey);
    var deleted := PurgeDeleted(e, e.objectKey in w1.objects);
    RunIgnores(c, w, g1, p, PurgeFound(e));
    PurgeDeletes(c, w1, p, e);
    ThreeSteps(c, w, p, find, g1, PurgeFound(e), PurgeDelete(p), v, deleted, g2, PurgeRecord(p, w1.now, purgeId));
    PurgeRecords(c, Run(c, v, g2), p, e, deleted.objectWasPresent, w1.now, purgeId);
  }

  lemma PurgeCallRefines(c: Codec, w: World, p: nat, scope: Scope, artifactId: Id, purgeId: Id, g1: seq<Step>, g2: seq<Step>)
    requires p !in w.processes && Others(g1, p) && Others(g2, p)
    requires var f := Catalog.Find(w.entries, scope, artifactId); f.Some? && f.value.metadata.state == Tombstoned
    ensures PurgeCall(c, w, scope, artifactId, purgeId, g1, g2).world ==
            Run(c, w, PurgeSteps(p, scope, artifactId, Run(c, w, g1).now, purgeId, g1, g2))
  {
    var e := Catalog.Find(w.entries, scope, artifactId).value;
    PurgeFoundStep(w, p, scope, artifactId);
    PurgeRuns(c, w, p, e, PurgeFind(p, scope, artifactId), purgeId, g1, g2);
  }

  lemma PurgeFoundStep(w: World, p: nat, scope: Scope, artifactId: Id)
    requires p !in w.processes
    requires var f := Catalog.Find(w.entries, scope, artifactId); f.Some? && f.value.metadata.state == Tombstoned
    ensures PurgeFindStep(w, p, scope, artifactId) == Become(w, p, PurgeFound(Catalog.Find(w.entries, scope, artifactId).value))
  {
  }

  // ---------------------------------------------------------------- reserve

  function ReserveSteps(p: nat, m: Metadata, principalId: Id, dataKey: Bytes, nonce: Bytes, freshKey: ObjectKey,
      g: seq<Step>): seq<Step> {
    [ReserveFind(p, m)] + g + [ReserveCommit(p, principalId, dataKey, nonce, freshKey)]
  }

  /** ReserveArtifact.execute for the request `m`, which the clock stamped earlier; the others take `g` after its find. */
  function ReserveCall(c: Codec, w: World, m: Metadata, principalId: Id, dataKey: Bytes, nonce: Bytes,
      freshKey: ObjectKey, g: seq<Step>): Call<(bool, Metadata)> {
    var existing := Catalog.Find(w.entries, m.scope, m.contentReference.artifactId);
    if !c.valid(m) || m != Reservation(m) || m.createdAt > w.now then Call(w, Err(CallRefused))
    else if existing.None? && m.retention.Expire? && m.retention.expiresAt.key <= m.createdAt then Call(w, Err(CallRefused))
    else
      var v := Run(c, w, g);
      var candidate := Candidate(c, ReserveFound(m, existing), principalId, dataKey, nonce, freshKey);
      ReserveCandidate(v, candidate)
  }

  function ReserveCandidate(w: World, candidate: CatalogEntry): Call<(bool, Metadata)> {
    Call(Insert(w, candidate),
         match Catalog.Reserve(w.entries, candidate).result
         case Ok(reserved) => Ok((reserved.0, reserved.1.metadata))
         case Err(error) => Err(CallCatalog(error)))
  }

  /** Whether a reservation that was let in created the record, met an equal one, or met another. */
  predicate FirstWriterWins(w: World, candidate: CatalogEntry, o: Call<(bool, Metadata)>) {
    var k := KeyOf(candidate);
    var m := candidate.metadata;
    match o.result
    case Ok((created, reserved)) =>
      && k in o.world.entries && reserved == o.world.entries[k].entry.metadata
      && created == (k !in w.entries)
      && ReservationIdentity(reserved) == ReservationIdentity(m)
      && (if created then o.world.entries[k].entry == candidate else o.world == w)
    case Err(error) =>
      && error == CallCatalog(Conflict) && o.world == w && k in w.entries
      && ReservationIdentity(w.entries[k].entry.metadata) != ReservationIdentity(m)
  }

  lemma ReserveCandidateRight(c: Codec, w: World, candidate: CatalogEntry)
    requires Inv(c, w)
    requires KeyOf(candidate) in w.entries || candidate.objectKey !in w.issued
    requires c.valid(candidate.metadata) && candidate.metadata == Reservation(candidate.metadata) && candidate.metadata.createdAt <= w.now
    requires candidate.receipt.None? && candidate.ownership.None?
    ensures var o := ReserveCandidate(w, candidate); Inv(c, o.world) && FirstWriterWins(w, candidate, o)
  {
    InsertKeeps(c, w, candidate);
    StoreStepKeeps(c, w, Insert(w, candidate));
  }

  /**
    The find-then-reserve race is harmless.  Whoever writes first fixes the object key and the
    encryption plan; every later reservation succeeds exactly when it asks for the same thing, and
    is then given the first writer's record.
   */
  lemma ReserveCallRight(c: Codec, w: World, m: Metadata, principalId: Id, dataKey: Bytes, nonce: Bytes,
      freshKey: ObjectKey, g: seq<Step>)
    requires Lawful(c) && Inv(c, w) && freshKey !in Run(c, w, g).issued
    ensures var o := ReserveCall(c, w, m, principalId, dataKey, nonce, freshKey, g);
            var existing := Catalog.Find(w.entries, m.scope, m.contentReference.artifactId);
            && Inv(c, o.world)
            && (o.result != Err(CallRefused) ==>
                  FirstWriterWins(Run(c, w, g), Candidate(c, ReserveFound(m, existing), principalId, dataKey, nonce, freshKey), o))
  {
    var k := Key(m.scope.tenantId, m.contentReference.artifactId);
    RunKeeps(c, w, g);
    if ReserveCall(c, w, m, principalId, dataKey, nonce, freshKey, g).result != Err(CallRefused) {
      if k in w.entries { assert EntryEvolves(w, Run(c, w, g), k); }
      var existing := Catalog.Find(w.entries, m.scope, m.contentReference.artifactId);
      ReserveCandidateRight(c, Run(c, w, g), Candidate(c, ReserveFound(m, existing), principalId, dataKey, nonce, freshKey));
    }
  }

  /**
    A reservation is turned away without a look at the catalog's answer exactly when its metadata is
    not that of a fresh reservation stamped by now, or when it would start a new artifact that expires
    no later than it begins.
   */
  lemma ReserveCallRefusals(c: Codec, w: World, m: Metadata, principalId: Id, dataKey: Bytes, nonce: Bytes,
      freshKey: ObjectKey, g: seq<Step>)
    ensures var o := ReserveCall(c, w, m, principalId, dataKey, nonce, freshKey, g);
            var k := Key(m.scope.tenantId, m.contentReference.artifactId);
            var asFresh := m.state == Reserved && m.availableAt.None? && m.tombstonedAt.None? && m.purgedAt.None?;
            var known := k in w.entries && w.entries[k].entry.metadata.scope == m.scope;
            && (o.result == Err(CallRefused) <==>
                  || !c.valid(m) || !asFresh || m.createdAt > w.now
                  || (!known && m.retention.Expire? && m.retention.expiresAt.key <= m.createdAt))
            && (o.result == Err(CallRefused) ==> o.world == w)
  {
  }

  lemma KeysStay(c: Codec, w: World, g: seq<Step>, k: Key)
    requires Lawful(c) && Inv(c, w) && k in w.entries
    ensures k in Run(c, w, g).entries
  {
    RunKeeps(c, w, g);
    assert EntryEvolves(w, Run(c, w, g), k);
  }

  lemma CandidateCreated(w: World, candidate: CatalogEntry)
    ensures var o := ReserveCandidate(w, candidate);
            o.result.Ok? && o.result.value.0 ==>
              && KeyOf(candidate) !in w.entries && KeyOf(candidate) in o.world.entries
              && o.world.entries[KeyOf(candidate)] == Stored(candidate, None, None)
  {
  }

  /** A record that a reservation creates is the caller's, with its own plan and key. */
  lemma ReserveCallCreates(c: Codec, w: World, m: Metadata, principalId: Id, dataKey: Bytes, nonce: Bytes,
      freshKey: ObjectKey, g: seq<Step>)
    requires Lawful(c) && Inv(c, w)
    ensures var o := ReserveCall(c, w, m, principalId, dataKey, nonce, freshKey, g);
            var k := Key(m.scope.tenantId, m.contentReference.artifactId);
            o.result.Ok? && o.result.value.0 ==>
              && k !in Run(c, w, g).entries && k in o.world.entries
              && o.world.entries[k] == Stored(CatalogEntry(principalId, c.plan(m, dataKey, nonce), m, freshKey, None, None), None, None)
  {
    var existing := Catalog.Find(w.entries, m.scope, m.contentReference.artifactId);
    CandidateCreated(Run(c, w, g), Candidate(c, ReserveFound(m, existing), principalId, dataKey, nonce, freshKey));
    if existing.Some? { KeysStay(c, w, g, Key(m.scope.tenantId, m.contentReference.artifactId)); }
  }

  /** The protocol's find lets a reservation in exactly when the call does. */
  lemma ReserveFindAgrees(c: Codec, w: World, p: nat, m: Metadata, principalId: Id, dataKey: Bytes, nonce: Bytes,
      freshKey: ObjectKey, g: seq<Step>)
    requires p !in w.processes
    ensures Next(c, w, ReserveFind(p, m)) ==
            if ReserveCall(c, w, m, principalId, dataKey, nonce, freshKey, g).result == Err(CallRefused) then w
            else Become(w, p, ReserveFound(m, Catalog.Find(w.entries, m.scope, m.contentReference.artifactId)))
  {
  }

  lemma ReserveCallRefines(c: Codec, w: World, p: nat, m: Metadata, principalId: Id, dataKey: Bytes, nonce: Bytes,
      freshKey: ObjectKey, g: seq<Step>)
    requires p !in w.processes && Others(g, p) && freshKey !in Run(c, w, g).issued
    requires ReserveCall(c, w, m, principalId, dataKey, nonce, freshKey, g).result != Err(CallRefused)
    ensures ReserveCall(c, w, m, principalId, dataKey, nonce, freshKey, g).world ==
            Run(c, w, ReserveSteps(p, m, principalId, dataKey, nonce, freshKey, g))
  {
    var find := ReserveFind(p, m);
    var commit := ReserveCommit(p, principalId, dataKey, nonce, freshKey);
    var q := ReserveFound(m, Catalog.Find(w.entries, m.scope, m.contentReference.artifactId));
    var v := Run(c, w, g);
    CaptureAndWait(c, w, find, g, p, q);
    RunConcat(c, w, [find] + g, [commit]);
    RunOne(c, Become(v, p, q), commit);
    BecomeFinish(Insert(v, Candidate(c, q, principalId, dataKey, nonce, freshKey)), p, q);
  }

  // ---------------------------------------------------------------- read

  /** ReadArtifact.execute: it changes nothing; the others take `g` between its find and its get. */
  function ReadCall(c: Codec, w: World, scope: Scope, artifactId: Id, mayReadRestricted: bool,
      g: seq<Step>): Call<(Bytes, Metadata)> {
    match Catalog.Find(w.entries, scope, artifactId)
    case None => Call(w, Err(CallNotFound))
    case Some(e) =>
      if e.metadata.contentReference.classification == Ascii("restricted") && !mayReadRestricted then Call(w, Err(CallForbidden))
      else if e.metadata.state != Available then Call(w, Err(CallUnavailable))
      else
        var v := Run(c, w, g);
        Call(v, ReadObject(c, v, e))
  }

  function ReadObject(c: Codec, w: World, e: CatalogEntry): Result<(Bytes, Metadata), CallError> {
    match Lookup(w.objects, e.objectKey)
    case None => Err(CallObjectMissing)
    case Some(bytes) =>
      if e.receipt != Some(c.receipt(bytes)) then Err(CallProtection) else
      match c.decrypt(e.metadata, e.plan, bytes)
      case None => Err(CallProtection)
      case Some(content) => Ok((content, e.metadata))
  }

  lemma ReadCallContent(c: Codec, w: World, scope: Scope, artifactId: Id, mayReadRestricted: bool, g: seq<Step>)
    requires Lawful(c) && Inv(c, w)
    ensures var o := ReadCall(c, w, scope, artifactId, mayReadRestricted, g);
            var k := Key(scope.tenantId, artifactId);
            && (o.result.Ok? ==>
                  && k in w.entries && o.result.value.1 == w.entries[k].entry.metadata
                  && Uploaded(c, w, k, o.result.value.0, o.result.value.1))
            && o.result != Err(CallProtection)
            && (o.result == Err(CallObjectMissing) ==> IsGone(o.world, k))
  {
    var k := Key(scope.tenantId, artifactId);
    var f := Catalog.Find(w.entries, scope, artifactId);
    if f.Some? && f.value.metadata.state == Available {
      RunKeeps(c, w, g);
      ReadObjectRight(c, w, Run(c, w, g), k);
    }
  }

  /** Restricted content is only for callers with the capability for it. */
  predicate MayRead(m: Metadata, mayReadRestricted: bool) {
    m.contentReference.classification != Ascii("restricted") || mayReadRestricted
  }

  /**
    Exactly when a read answers what.  Content is returned to a caller who may read it, and it is
    exactly the reserved content of an artifact that was available; the protection error never
    happens, even when the object is deleted and stored again while the read waits, and a missing
    object means that the artifact is gone.
   */
  lemma ReadCallRight(c: Codec, w: World, scope: Scope, artifactId: Id, mayReadRestricted: bool, g: seq<Step>)
    requires Lawful(c) && Inv(c, w)
    ensures var o := ReadCall(c, w, scope, artifactId, mayReadRestricted, g);
            var k := Key(scope.tenantId, artifactId);
            var f := Catalog.Find(w.entries, scope, artifactId);
            var allowed := f.Some? && MayRead(f.value.metadata, mayReadRestricted);
            var readable := allowed && f.value.metadata.state == Available;
            && (o.result == Err(CallNotFound) <==> f.None?)
            && (o.result == Err(CallForbidden) <==> f.Some? && !allowed)
            && (o.result == Err(CallUnavailable) <==> allowed && f.value.metadata.state != Available)
            && (o.result.Ok? ==> readable && Uploaded(c, w, k, o.result.value.0, o.result.value.1))
            && (readable ==> o.result.Ok? || (o.result == Err(CallObjectMissing) && IsGone(o.world, k)))
            && o.world == (if readable then Run(c, w, g) else w)
  {
    ReadCallContent(c, w, scope, artifactId, mayReadRestricted, g);
    ReadCallAnswers(c, w, scope, artifactId, mayReadRestricted, g);
  }

  lemma ReadCallAnswers(c: Codec, w: World, scope: Scope, artifactId: Id, mayReadRestricted: bool, g: seq<Step>)
    requires Lawful(c) && Inv(c, w)
    ensures var o := ReadCall(c, w, scope, artifactId, mayReadRestricted, g);
            var f := Catalog.Find(w.entries, scope, artifactId);
            if f.None? then o == Call(w, Err(CallNotFound))
            else if !MayRead(f.value.metadata, mayReadRestricted) then o == Call(w, Err(CallForbidden))
            else if f.value.metadata.state != Available then o == Call(w, Err(CallUnavailable))
            else
              && o.world == Run(c, w, g)
              && (o.result.Ok? || (o.result == Err(CallObjectMissing) && IsGone(o.world, Key(scope.tenantId, artifactId))))
  {
    var f := Catalog.Find(w.entries, scope, artifactId);
    if f.Some? && f.value.metadata.state == Available {
      RunKeeps(c, w, g);
      ReadObjectRight(c, w, Run(c, w, g), Key(scope.tenantId, artifactId));
    }
  }

  lemma ReadObjectRight(c: Codec, w: World, v: World, k: Key)
    requires Lawful(c) && StoresOk(c, w) && StoresOk(c, v) && Evolves(w, v)
    requires k in w.entries && w.entries[k].entry.metadata.state == Available
    ensures var e := w.entries[k].entry;
            var r := ReadObject(c, v, e);
            if r.Ok? then r.value.1 == e.metadata && Uploaded(c, w, k, r.value.0, e.metadata)
            else r.error == CallObjectMissing && IsGone(v, k)
  {
    ReadBytes(c, w, v, k);
  }

  /** Whatever the store holds under an artifact's key later on is what it held when it was available. */
  lemma ReadBytes(c: Codec, w: World, v: World, k: Key)
    requires Lawful(c) && StoresOk(c, w) && StoresOk(c, v) && Evolves(w, v)
    requires k in w.entries && w.entries[k].entry.metadata.state == Available
    ensures var e := w.entries[k].entry;
            && Holds(c, w, e)
            && (Lookup(v.objects, e.objectKey) == Lookup(w.objects, e.objectKey) || (IsGone(v, k) && e.objectKey !in v.objects))
  {
    var e := w.entries[k].entry;
    RowHolds(c, w, k);
    assert EntryOk(c, w, k) && EntryOk(c, v, k) by { assert EntryEvolves(w, v, k); }
    assert EntryEvolves(w, v, k);
    if e.objectKey in v.objects {
      assert c.decrypt(Reservation(e.metadata), e.plan, w.objects[e.objectKey]).Some?;
    }
  }

  /** Whatever happens after an upload, a read that returns content returns the uploaded content. */
  lemma ReadsReturnUploads(c: Codec, w: World, scope: Scope, artifactId: Id, content: Bytes, m: Metadata,
                           since: seq<Step>, mayReadRestricted: bool, g: seq<Step>)
    requires Lawful(c) && Inv(c, w) && Uploaded(c, w, Key(scope.tenantId, artifactId), content, m)
    ensures var o := ReadCall(c, Run(c, w, since), scope, artifactId, mayReadRestricted, g);
            o.result.Ok? ==> o.result.value == (content, m)
  {
    var k := Key(scope.tenantId, artifactId);
    var v := Run(c, w, since);
    RunKeeps(c, w, since);
    ReadCallContent(c, v, scope, artifactId, mayReadRestricted, g);
    ReadBytes(c, w, v, k);
    assert EntryEvolves(w, v, k);
  }
}
