/** What the lifecycle protocol promises over whole runs. */
module Lifecycle {
  import opened Prelude
  import J = Json
  import opened ArtifactContract
  import opened Envelope
  import opened Catalog
  import opened Protocol
  import opened ProtocolSafety

  // ---------------------------------------------------------------- the envelope is a lawful codec

  function CodecOf(c: Crypto): Codec {
    Codec(
      m => ValidMetadata(m),
      (m, plan, p) => match Encrypt(c, m, plan, p) case Ok(o) => Some(o.bytes) case Err(_) => None,
      (m, plan, b) => match Decrypt(c, m, plan, b) case Ok(p) => Some(p) case Err(_) => None,
      b => ReceiptOf(c, b),
      (m, p) => ContentOf(c, m, p),
      (m, dataKey, nonce) => CreatePlan(c, m, dataKey, nonce))
  }

  lemma ActivatedIsValid(m: Metadata, at: Time)
    requires ValidMetadata(m)
    ensures ValidMetadata(Reservation(m))
    ensures m.state == Reserved && m.createdAt <= at ==> ValidMetadata(Activated(m, at))
  {
    var r := Lifecycle(Reservation(m));
    assert r == [Some(m.createdAt), None, None, None];
    var a := Lifecycle(Activated(m, at));
    assert a == [Some(m.createdAt), Some(at), m.tombstonedAt, m.purgedAt];
  }

  lemma EnvelopeDecryptsExactly(c: Crypto, m: Metadata, n: Metadata, plan: Plan, p: Bytes, b: Bytes)
    requires Ideal(c) && ValidMetadata(m) && ValidMetadata(n) && Reservation(m) == Reservation(n)
    ensures CodecOf(c).encrypt(m, plan, p) == Some(b) <==> CodecOf(c).decrypt(n, plan, b) == Some(p)
  {
    assert ProtectedFields(m) == ProtectedFields(Reservation(m)) && ProtectedFields(n) == ProtectedFields(Reservation(n));
    DecryptExactly(c, m, n, plan, p, b);
  }

  lemma EnvelopeObject(c: Crypto, m: Metadata, plan: Plan, a: Bytes, b: Bytes)
    requires Ideal(c) && Decrypt(c, m, plan, a).Ok? && Decrypt(c, m, plan, b).Ok?
    ensures a == b && ContentOf(c, m, Decrypt(c, m, plan, a).value)
    ensures ReceiptOf(c, a).sizeBytes == m.contentReference.sizeBytes + OBJECT_OVERHEAD
  {
    OneObject(c, m, m, plan, a, b);
    DecryptExactly(c, m, m, plan, Decrypt(c, m, plan, a).value, a);
  }

  /** Everything the protocol assumes of encryption is proved of the envelope over ideal primitives. */
  lemma EnvelopeIsLawful(c: Crypto)
    requires Ideal(c)
    ensures Lawful(CodecOf(c))
  {
    var d := CodecOf(c);
    forall m, n, plan, p, b | d.valid(m) && d.valid(n) && Reservation(m) == Reservation(n)
      ensures d.encrypt(m, plan, p) == Some(b) <==> d.decrypt(n, plan, b) == Some(p) {
      EnvelopeDecryptsExactly(c, m, n, plan, p, b);
    }
    forall m, plan, a, b | d.decrypt(m, plan, a).Some? && d.decrypt(m, plan, b).Some?
      ensures a == b { EnvelopeObject(c, m, plan, a, b); }
    forall m, plan, b | d.decrypt(m, plan, b).Some?
      ensures d.matches(m, d.decrypt(m, plan, b).value) && d.receipt(b).sizeBytes == m.contentReference.sizeBytes + OBJECT_OVERHEAD {
      EnvelopeObject(c, m, plan, b, b);
    }
    forall m | d.valid(m) ensures d.valid(Reservation(m)) { ActivatedIsValid(m, m.createdAt); }
    forall m, at | d.valid(m) && m.state == Reserved && m.createdAt <= at ensures d.valid(Activated(m, at)) { ActivatedIsValid(m, at); }
  }

  // ---------------------------------------------------------------- available artifacts

  lemma StartIsSound(c: Codec, now: Time)
    ensures Inv(c, Start(now))
  {
  }

  /** The object of `e` is in the store, is the one its receipt names, and decrypts to the reserved content. */
  predicate Holds(c: Codec, w: World, e: CatalogEntry) {
    && e.objectKey in w.objects
    && e.receipt == Some(c.receipt(w.objects[e.objectKey]))
    && Decrypts(c, e.metadata, e.plan, w.objects[e.objectKey])
  }

  predicate Decrypts(c: Codec, m: Metadata, plan: Plan, bytes: Bytes) {
    c.decrypt(m, plan, bytes).Some? && c.matches(m, c.decrypt(m, plan, bytes).value)
  }

  /** What decrypts under one record of an artifact decrypts under any other, and to the same content. */
  lemma DecryptsUnder(c: Codec, m: Metadata, n: Metadata, plan: Plan, bytes: Bytes)
    requires Lawful(c) && c.valid(m) && c.valid(n) && Reservation(m) == Reservation(n)
    requires c.decrypt(m, plan, bytes).Some?
    ensures Decrypts(c, n, plan, bytes) && c.decrypt(n, plan, bytes) == c.decrypt(m, plan, bytes)
  {
    assert c.encrypt(m, plan, c.decrypt(m, plan, bytes).value) == Some(bytes);
  }

  lemma RowHolds(c: Codec, w: World, k: Key)
    requires Lawful(c) && StoresOk(c, w) && k in w.entries && w.entries[k].entry.metadata.state == Available
    ensures Holds(c, w, w.entries[k].entry)
  {
    assert EntryOk(c, w, k);
    var e := w.entries[k].entry;
    DecryptsUnder(c, Reservation(e.metadata), e.metadata, e.plan, w.objects[e.objectKey]);
  }

  /**
    In every run, at every moment: an available artifact's object is stored, its receipt is the
    catalog's, and it decrypts to content of the reserved digest and length.
   */
  lemma AvailableIsStored(c: Codec, now: Time, schedule: seq<Step>, k: Key)
    requires Lawful(c)
    requires var w := Run(c, Start(now), schedule); k in w.entries && w.entries[k].entry.metadata.state == Available
    ensures var w := Run(c, Start(now), schedule); Holds(c, w, w.entries[k].entry)
  {
    StartIsSound(c, now);
    RunKeeps(c, Start(now), schedule);
    RowHolds(c, Run(c, Start(now), schedule), k);
  }

  /** The same for the envelope itself: an available artifact is stored and opens to the reserved bytes. */
  lemma AvailableOpens(c: Crypto, now: Time, schedule: seq<Step>, k: Key)
    requires Ideal(c)
    requires var w := Run(CodecOf(c), Start(now), schedule); k in w.entries && w.entries[k].entry.metadata.state == Available
    ensures var w := Run(CodecOf(c), Start(now), schedule);
            var e := w.entries[k].entry;
            && e.objectKey in w.objects
            && e.receipt == Some(ReceiptOf(c, w.objects[e.objectKey]))
            && var content := Decrypt(c, e.metadata, e.plan, w.objects[e.objectKey]);
               content.Ok? && |content.value| == e.metadata.contentReference.sizeBytes
                          && c.hash(content.value) == e.metadata.contentReference.sha256
  {
    EnvelopeIsLawful(c);
    AvailableIsStored(CodecOf(c), now, schedule, k);
  }

  lemma SoundRun(c: Codec, now: Time, schedule: seq<Step>)
    requires Lawful(c)
    ensures Inv(c, Run(c, Start(now), schedule))
  {
    StartIsSound(c, now);
    RunKeeps(c, Start(now), schedule);
  }

  /** Two uploads of one artifact have the same key, and what encryption accepts of them is the same. */
  predicate UploadsMatch(c: Codec, x: Process, y: Process)
    requires x.UploadFound? && y.UploadFound?
  {
    var a := c.encrypt(x.entry.metadata, x.entry.plan, x.content);
    var b := c.encrypt(y.entry.metadata, y.entry.plan, y.content);
    && x.entry.objectKey == y.entry.objectKey
    && (a.Some? && b.Some? ==> a == b && x.content == y.content)
  }

  /**
    No run of any number of uploads ever meets a foreign object: ArtifactObjectConflictError is
    unreachable.  Whatever two uploads of one artifact are about to store, at the same moment or at
    any two moments of a run, however often they were interrupted or retried, is the same.
   */
  lemma UploadsAgree(c: Codec, now: Time, before: seq<Step>, after: seq<Step>, p: nat, r: nat)
    requires Lawful(c)
    requires p in Run(c, Start(now), before).processes && r in Run(c, Start(now), before + after).processes
    ensures var x, y := Run(c, Start(now), before).processes[p], Run(c, Start(now), before + after).processes[r];
            && !x.UploadConflicted? && !y.UploadConflicted?
            && (x.UploadFound? && y.UploadFound? && KeyOf(x.entry) == KeyOf(y.entry) ==> UploadsMatch(c, x, y))
  {
    var w, v := Run(c, Start(now), before), Run(c, Start(now), before + after);
    SoundRun(c, now, before);
    SoundRun(c, now, before + after);
    RunConcat(c, Start(now), before, after);
    RunKeeps(c, w, after);
    var x, y := w.processes[p], v.processes[r];
    assert ProcessOk(c, w, x) && ProcessOk(c, v, y);
    if x.UploadFound? && y.UploadFound? && KeyOf(x.entry) == KeyOf(y.entry) {
      SnapshotStable(w, v, x.entry);
      EncryptionsAgree(c, v.entries[KeyOf(x.entry)].entry, x.entry, y.entry, x.content, y.content);
    }
  }

  lemma EncryptionsAgree(c: Codec, now: CatalogEntry, d: CatalogEntry, e: CatalogEntry, p: Bytes, q: Bytes)
    requires Lawful(c) && Later(d, now) && Later(e, now) && c.valid(d.metadata) && c.valid(e.metadata)
    ensures d.objectKey == e.objectKey
    ensures c.encrypt(d.metadata, d.plan, p).Some? && c.encrypt(e.metadata, e.plan, q).Some? ==>
              p == q && c.encrypt(d.metadata, d.plan, p) == c.encrypt(e.metadata, e.plan, q)
  {
    if c.encrypt(d.metadata, d.plan, p).Some? && c.encrypt(e.metadata, e.plan, q).Some? {
      var a, b := c.encrypt(d.metadata, d.plan, p).value, c.encrypt(e.metadata, e.plan, q).value;
      assert c.decrypt(e.metadata, e.plan, a) == Some(p) && c.decrypt(e.metadata, e.plan, b) == Some(q);
    }
  }

  lemma {:induction false} RunConcat(c: Codec, w: World, a: seq<Step>, b: seq<Step>)
    ensures Run(c, w, a + b) == Run(c, Run(c, w, a), b)
    decreases |a|
  {
    if a == [] {
      assert a + b == b;
    } else {
      assert (a + b)[0] == a[0] && (a + b)[1..] == a[1..] + b;
      RunConcat(c, Next(c, w, a[0]), a[1..], b);
    }
  }

  /**
    In any run states only advance, and an entry's plan, key and reserved content, its tombstone and
    its purge receipt never change once they are there.
   */
  lemma OnlyAdvances(c: Codec, now: Time, before: seq<Step>, after: seq<Step>, k: Key)
    requires Lawful(c) && k in Run(c, Start(now), before).entries
    ensures var w, v := Run(c, Start(now), before), Run(c, Start(now), before + after);
            && k in v.entries && Later(w.entries[k].entry, v.entries[k].entry)
            && (w.entries[k].tombstone.Some? ==> v.entries[k].tombstone == w.entries[k].tombstone)
            && (w.entries[k].purge.Some? ==> v.entries[k].purge == w.entries[k].purge)
  {
    StartIsSound(c, now);
    RunKeeps(c, Start(now), before);
    RunConcat(c, Start(now), before, after);
    var w := Run(c, Start(now), before);
    RunKeeps(c, w, after);
    assert EntryEvolves(w, Run(c, w, after), k);
  }

  // ---------------------------------------------------------------- purge, exactly

  predicate IsPurged(w: World, k: Key) { k in w.entries && w.entries[k].entry.metadata.state == Purged }

  predicate HasObject(w: World, k: Key) { k in w.entries && w.entries[k].entry.objectKey in w.objects }

  /** An upload of `k` that has found its entry and not yet put its object. */
  predicate PendingPut(c: Codec, q: Process, k: Key) {
    q.UploadFound? && KeyOf(q.entry) == k && c.encrypt(q.entry.metadata, q.entry.plan, q.content).Some?
  }

  predicate PurgeIn(q: Process, k: Key) { q.PurgeDeleted? && KeyOf(q.entry) == k }

  /** No upload is about to store the object of `k`, and a stored one will be deleted before any purge is recorded. */
  predicate Settled(c: Codec, w: World, k: Key) {
    && IsGone(w, k)
    && (forall p | p in w.processes :: !PendingPut(c, w.processes[p], k))
    && (HasObject(w, k) ==> !IsPurged(w, k) && forall p | p in w.processes :: !PurgeIn(w.processes[p], k))
  }

  ghost predicate AlwaysPurgedClean(c: Codec, w: World, k: Key) {
    forall schedule :: var v := Run(c, w, schedule); IsPurged(v, k) ==> !HasObject(v, k)
  }

  lemma OnlyPutsStore(c: Codec, w: World, step: Step)
    requires !step.UploadPut?
    ensures Next(c, w, step).objects.Keys <= w.objects.Keys
  {
  }

  lemma OnlyFindsStartUploads(c: Codec, w: World, step: Step, r: nat)
    requires var v := Next(c, w, step); r in v.processes && v.processes[r].UploadFound?
    ensures (r in w.processes && w.processes[r] == Next(c, w, step).processes[r]) || (step.UploadFind? && step.p == r)
  {
  }

  lemma OnlyDeletesStartRecords(c: Codec, w: World, step: Step, r: nat)
    requires var v := Next(c, w, step); r in v.processes && v.processes[r].PurgeDeleted?
    ensures (r in w.processes && w.processes[r] == Next(c, w, step).processes[r]) || (step.PurgeDelete? && step.p == r)
  {
  }

  lemma StateAdvances(c: Codec, w: World, step: Step, k: Key)
    requires Lawful(c) && Inv(c, w) && k in w.entries
    ensures k in Next(c, w, step).entries && Next(c, w, step).entries[k].entry.objectKey == w.entries[k].entry.objectKey
    ensures IsGone(w, k) ==> IsGone(Next(c, w, step), k)
    ensures IsPurged(w, k) ==> IsPurged(Next(c, w, step), k)
  {
    StepKeeps(c, w, step);
    assert EntryEvolves(w, Next(c, w, step), k);
  }

  lemma PutIsForeseen(c: Codec, w: World, p: nat, accepts: bool, k: Key)
    requires Inv(c, w) && k in w.entries && !(p in w.processes && PendingPut(c, w.processes[p], k))
    ensures w.entries[k].entry.objectKey in UploadPutStep(c, w, p, accepts).objects ==> HasObject(w, k)
  {
    if p in w.processes && w.processes[p].UploadFound? {
      assert ProcessOk(c, w, w.processes[p]);
      if KeyOf(w.processes[p].entry) != k { KeysDiffer(c, w, w.processes[p].entry, k); }
    }
  }

  /** Object keys of different artifacts differ. */
  lemma KeysDiffer(c: Codec, w: World, e: CatalogEntry, k: Key)
    requires StoresOk(c, w) && Snapshot(w, e) && k in w.entries && KeyOf(e) != k
    ensures e.objectKey != w.entries[k].entry.objectKey
  {
    assert EntryOk(c, w, KeyOf(e)) && EntryOk(c, w, k);
  }

  lemma PutsAreForeseen(c: Codec, w: World, step: Step, k: Key)
    requires Lawful(c) && Inv(c, w) && k in w.entries
    requires !(step.UploadPut? && step.p in w.processes && PendingPut(c, w.processes[step.p], k))
    ensures HasObject(Next(c, w, step), k) ==> HasObject(w, k)
  {
    StateAdvances(c, w, step, k);
    if step.UploadPut? { PutIsForeseen(c, w, step.p, step.inspectionAccepts, k); } else { OnlyPutsStore(c, w, step); }
  }

  lemma PurgesAreForeseen(c: Codec, w: World, step: Step, k: Key)
    requires k in w.entries
    requires !(step.PurgeRecord? && step.p in w.processes && PurgeIn(w.processes[step.p], k))
    ensures IsPurged(Next(c, w, step), k) ==> IsPurged(w, k)
  {
    if step.PurgeRecord? { RecordIsForeseen(w, step.p, step.occurredAt, step.purgeId, k); } else { OnlyRecordsPurge(c, w, step, k); }
  }

  lemma RecordIsForeseen(w: World, p: nat, at: Time, purgeId: Id, k: Key)
    requires k in w.entries && !(p in w.processes && PurgeIn(w.processes[p], k))
    ensures IsPurged(PurgeRecordStep(w, p, at, purgeId), k) ==> IsPurged(w, k)
  {
  }

  lemma OnlyRecordsPurge(c: Codec, w: World, step: Step, k: Key)
    requires !step.PurgeRecord? && k in w.entries
    ensures IsPurged(Next(c, w, step), k) ==> IsPurged(w, k)
  {
  }

  lemma FoundNotGone(c: Codec, w: World, p: nat, scope: Scope, artifactId: Id, content: Bytes, k: Key)
    requires Inv(c, w) && p !in w.processes && IsGone(w, k)
    ensures var v := UploadFindStep(w, p, scope, artifactId, content); p in v.processes ==> !PendingPut(c, v.processes[p], k)
  {
    var l := Key(scope.tenantId, artifactId);
    if l in w.entries { assert EntryOk(c, w, l); }
  }

  lemma PendingPutsAreOld(c: Codec, w: World, step: Step, k: Key, r: nat)
    requires Inv(c, w) && IsGone(w, k)
    requires var v := Next(c, w, step); r in v.processes && PendingPut(c, v.processes[r], k)
    ensures r in w.processes && PendingPut(c, w.processes[r], k)
  {
    OnlyFindsStartUploads(c, w, step, r);
    if step.UploadFind? && step.p !in w.processes { FoundNotGone(c, w, step.p, step.scope, step.artifactId, step.content, k); }
  }

  lemma DeletedIsAbsent(c: Codec, w: World, p: nat, k: Key)
    requires Inv(c, w) && k in w.entries && p in w.processes && w.processes[p].PurgeFound?
    ensures var v := PurgeDeleteStep(w, p); PurgeIn(v.processes[p], k) ==> w.entries[k].entry.objectKey !in v.objects
  {
    assert ProcessOk(c, w, w.processes[p]);
  }

  lemma PurgesFollowDeletes(c: Codec, w: World, step: Step, k: Key, r: nat)
    requires Lawful(c) && Inv(c, w) && k in w.entries
    requires var v := Next(c, w, step); r in v.processes && PurgeIn(v.processes[r], k) && HasObject(v, k)
    ensures r in w.processes && PurgeIn(w.processes[r], k)
  {
    StateAdvances(c, w, step, k);
    OnlyDeletesStartRecords(c, w, step, r);
    if step.PurgeDelete? && step.p in w.processes && w.processes[step.p].PurgeFound? { DeletedIsAbsent(c, w, step.p, k); }
  }

  lemma SettledKept(c: Codec, w: World, step: Step, k: Key)
    requires Lawful(c) && Inv(c, w) && Settled(c, w, k)
    ensures Settled(c, Next(c, w, step), k)
  {
    var v := Next(c, w, step);
    StateAdvances(c, w, step, k);
    forall r | r in v.processes ensures !PendingPut(c, v.processes[r], k) {
      if PendingPut(c, v.processes[r], k) { PendingPutsAreOld(c, w, step, k, r); }
    }
    PutsAreForeseen(c, w, step, k);
    if HasObject(v, k) {
      PurgesAreForeseen(c, w, step, k);
      forall r | r in v.processes ensures !PurgeIn(v.processes[r], k) {
        if PurgeIn(v.processes[r], k) { PurgesFollowDeletes(c, w, step, k, r); }
      }
    }
  }

  lemma {:induction false} SettledForever(c: Codec, w: World, schedule: seq<Step>, k: Key)
    requires Lawful(c) && Inv(c, w) && Settled(c, w, k)
    ensures Settled(c, Run(c, w, schedule), k)
    decreases |schedule|
  {
    if schedule != [] {
      SettledKept(c, w, schedule[0], k);
      StepKeeps(c, w, schedule[0]);
      SettledForever(c, Next(c, w, schedule[0]), schedule[1..], k);
    }
  }

  lemma {:induction false} Bound(s: set<nat>) returns (b: nat)
    ensures forall x | x in s :: x < b
  {
    if s == {} {
      b := 0;
    } else {
      var x :| x in s;
      var rest := Bound(s - {x});
      b := rest + x + 1;
      assert forall y | y in s :: y == x || y in s - {x};
    }
  }

  /** The three steps of one undisturbed PurgeArtifact call. */
  function PurgeAlone(r: nat, e: CatalogEntry): seq<Step> {
    [PurgeFind(r, e.metadata.scope, e.metadata.contentReference.artifactId), PurgeDelete(r), PurgeRecord(r, 0, [])]
  }

  lemma PurgeFoundAlone(c: Codec, w: World, r: nat, k: Key)
    requires StoresOk(c, w) && k in w.entries && w.entries[k].entry.metadata.state == Tombstoned && r !in w.processes
    ensures var e := w.entries[k].entry;
            PurgeFindStep(w, r, e.metadata.scope, e.metadata.contentReference.artifactId) == Become(w, r, PurgeFound(e))
  {
    assert EntryOk(c, w, k);
  }

  lemma PurgeDeletedAlone(w: World, r: nat, e: CatalogEntry)
    ensures PurgeDeleteStep(Become(w, r, PurgeFound(e)), r) ==
            Become(w.(objects := w.objects - {e.objectKey}), r, PurgeDeleted(e, e.objectKey in w.objects))
  {
  }

  lemma PurgeRecordedAlone(w: World, r: nat, e: CatalogEntry, present: bool)
    requires r !in w.processes && KeyOf(e) in w.entries && w.entries[KeyOf(e)].entry == e && e.metadata.state == Tombstoned
    requires e.objectKey !in w.objects
    ensures var v := PurgeRecordStep(Become(w, r, PurgeDeleted(e, present)), r, 0, []);
            && v.processes == w.processes
            && IsPurged(v, KeyOf(e)) && v.entries[KeyOf(e)].entry.objectKey == e.objectKey && !HasObject(v, KeyOf(e))
  {
  }

  lemma RunThree(c: Codec, w: World, s: Step, t: Step, u: Step)
    ensures Run(c, w, [s, t, u]) == Next(c, Next(c, Next(c, w, s), t), u)
  {
    assert [s, t, u] == [s] + ([t] + [u]);
    RunConcat(c, w, [s], [t] + [u]);
    RunOne(c, w, s);
    RunConcat(c, Next(c, w, s), [t], [u]);
    RunOne(c, Next(c, w, s), t);
    RunOne(c, Next(c, Next(c, w, s), t), u);
  }

  lemma RunPurgeAlone(c: Codec, w: World, r: nat, e: CatalogEntry)
    ensures Run(c, w, PurgeAlone(r, e)) ==
            PurgeRecordStep(PurgeDeleteStep(PurgeFindStep(w, r, e.metadata.scope, e.metadata.contentReference.artifactId), r), r, 0, [])
  {
    var s := PurgeAlone(r, e);
    RunThree(c, w, s[0], s[1], s[2]);
  }

  lemma PurgeAlonePurges(c: Codec, w: World, r: nat, k: Key)
    requires Inv(c, w) && k in w.entries && w.entries[k].entry.metadata.state == Tombstoned && r !in w.processes
    ensures var e := w.entries[k].entry;
            var v := Run(c, w, PurgeAlone(r, e));
            && v.processes == w.processes
            && IsPurged(v, k) && v.entries[k].entry.objectKey == e.objectKey && !HasObject(v, k)
  {
    var e := w.entries[k].entry;
    assert KeyOf(e) == k by { assert EntryOk(c, w, k); }
    PurgeFoundAlone(c, w, r, k);
    PurgeDeletedAlone(w, r, e);
    PurgeRecordedAlone(w.(objects := w.objects - {e.objectKey}), r, e, e.objectKey in w.objects);
    RunPurgeAlone(c, w, r, e);
  }

  lemma RunOne(c: Codec, w: World, step: Step)
    ensures Run(c, w, [step]) == Next(c, w, step)
  {
    assert [step][1..] == [];
  }

  lemma LatePutStores(c: Codec, w: World, p: nat, k: Key)
    requires Inv(c, w) && k in w.entries && p in w.processes && PendingPut(c, w.processes[p], k)
    ensures HasObject(Next(c, w, UploadPut(p, true)), k)
    ensures IsPurged(w, k) ==> IsPurged(Next(c, w, UploadPut(p, true)), k)
  {
    assert ProcessOk(c, w, w.processes[p]);
  }

  /** An upload in flight when its artifact is gone can leave an object behind the purge. */
  lemma LatePutSpoils(c: Codec, w: World, p: nat, k: Key) returns (schedule: seq<Step>)
    requires Lawful(c) && Inv(c, w) && IsGone(w, k) && p in w.processes && PendingPut(c, w.processes[p], k)
    ensures var v := Run(c, w, schedule); IsPurged(v, k) && HasObject(v, k)
  {
    var put := UploadPut(p, true);
    if IsPurged(w, k) {
      schedule := [put];
      RunOne(c, w, put);
      LatePutStores(c, w, p, k);
    } else {
      var r := Bound(w.processes.Keys);
      var purge := PurgeAlone(r, w.entries[k].entry);
      var v := Run(c, w, purge);
      schedule := purge + [put];
      RunConcat(c, w, purge, [put]);
      RunOne(c, v, put);
      PurgeAlonePurges(c, w, r, k);
      RunKeeps(c, w, purge);
      LatePutStores(c, v, p, k);
    }
  }

  lemma RecordSpoils(c: Codec, w: World, p: nat, k: Key) returns (schedule: seq<Step>)
    requires Inv(c, w) && IsGone(w, k) && HasObject(w, k) && p in w.processes && PurgeIn(w.processes[p], k)
    ensures var v := Run(c, w, schedule); IsPurged(v, k) && HasObject(v, k)
  {
    if IsPurged(w, k) {
      schedule := [];
    } else {
      schedule := [PurgeRecord(p, 0, [])];
      RunOne(c, w, schedule[0]);
      assert ProcessOk(c, w, w.processes[p]);
      assert EntryOk(c, w, k);
    }
  }

  /** Reserve, find for upload, abandon. */
  function AbandonedMidUpload(m: Metadata, dataKey: Bytes, nonce: Bytes, content: Bytes): seq<Step> {
    var id := m.contentReference.artifactId;
    [ReserveFind(0, m), ReserveCommit(0, [], dataKey, nonce, []), UploadFind(1, m.scope, id, content)] +
    [TombstoneStep(m.scope, Tombstone([], id, m.createdAt, [], [], Abandoned))]
  }

  lemma ReservedWorld(c: Codec, m: Metadata, dataKey: Bytes, nonce: Bytes, content: Bytes)
    requires c.valid(m) && m == Reservation(m) && m.retention.Retain?
    ensures var e := CatalogEntry([], c.plan(m, dataKey, nonce), m, [], None, None);
            var w1 := ReserveFindStep(c, Start(m.createdAt), 0, m);
            var w2 := ReserveCommitStep(c, w1, 0, [], dataKey, nonce, []);
            var w3 := UploadFindStep(w2, 1, m.scope, m.contentReference.artifactId, content);
            && w3.entries == map[KeyOf(e) := Stored(e, None, None)]
            && w3.processes == map[1 := UploadFound(e, content)]
  {
    var e := CatalogEntry([], c.plan(m, dataKey, nonce), m, [], None, None);
    var w1 := ReserveFindStep(c, Start(m.createdAt), 0, m);
    assert w1 == Become(Start(m.createdAt), 0, ReserveFound(m, None));
    var w2 := ReserveCommitStep(c, w1, 0, [], dataKey, nonce, []);
    assert w2.entries == map[KeyOf(e) := Stored(e, None, None)];
    assert w2.processes == map[];
  }

  lemma MidUploadIsGone(c: Codec, m: Metadata, dataKey: Bytes, nonce: Bytes, content: Bytes)
    requires c.valid(m) && m == Reservation(m) && m.retention.Retain?
    requires c.encrypt(m, c.plan(m, dataKey, nonce), content).Some?
    ensures var w := Run(c, Start(m.createdAt), AbandonedMidUpload(m, dataKey, nonce, content));
            var k := Key(m.scope.tenantId, m.contentReference.artifactId);
            IsGone(w, k) && 1 in w.processes && PendingPut(c, w.processes[1], k)
  {
    var s := AbandonedMidUpload(m, dataKey, nonce, content);
    ReservedWorld(c, m, dataKey, nonce, content);
    RunConcat(c, Start(m.createdAt), s[..3], s[3..]);
    assert s[..3] == [s[0], s[1], s[2]] && s[3..] == [s[3]] && s == s[..3] + s[3..];
    RunThree(c, Start(m.createdAt), s[0], s[1], s[2]);
    RunOne(c, Run(c, Start(m.createdAt), s[..3]), s[3]);
  }

  /**
    So purged does not imply absent: for every artifact that can be uploaded at all there is a run
    from empty stores that ends with its purge recorded and its object stored.
   */
  lemma PurgedButStored(c: Codec, m: Metadata, dataKey: Bytes, nonce: Bytes, content: Bytes) returns (schedule: seq<Step>)
    requires Lawful(c) && c.valid(m) && m == Reservation(m) && m.retention.Retain?
    requires c.encrypt(m, c.plan(m, dataKey, nonce), content).Some?
    ensures var v := Run(c, Start(m.createdAt), schedule);
            var k := Key(m.scope.tenantId, m.contentReference.artifactId);
            IsPurged(v, k) && HasObject(v, k)
  {
    var before := AbandonedMidUpload(m, dataKey, nonce, content);
    MidUploadIsGone(c, m, dataKey, nonce, content);
    StartIsSound(c, m.createdAt);
    RunKeeps(c, Start(m.createdAt), before);
    var after := LatePutSpoils(c, Run(c, Start(m.createdAt), before), 1, Key(m.scope.tenantId, m.contentReference.artifactId));
    schedule := before + after;
    RunConcat(c, Start(m.createdAt), before, after);
  }

  /**
    Purge, exactly.  Once an artifact is tombstoned, no continuation whatever records a purge while
    its object is stored if and only if the moment is settled: no upload that found the artifact
    earlier still has its put ahead of it, and no purge has already deleted what is stored now.
   */
  lemma PurgeExactly(c: Codec, w: World, k: Key)
    requires Lawful(c) && Inv(c, w) && IsGone(w, k)
    ensures AlwaysPurgedClean(c, w, k) <==> Settled(c, w, k)
  {
    if Settled(c, w, k) {
      forall schedule ensures var v := Run(c, w, schedule); IsPurged(v, k) ==> !HasObject(v, k) {
        SettledForever(c, w, schedule, k);
      }
    } else if p :| p in w.processes && PendingPut(c, w.processes[p], k) {
      var schedule := LatePutSpoils(c, w, p, k);
    } else if IsPurged(w, k) {
      assert Run(c, w, []) == w;
    } else {
      var p :| p in w.processes && PurgeIn(w.processes[p], k);
      var schedule := RecordSpoils(c, w, p, k);
    }
  }

  /**
    At the very step that tombstones an artifact: its purges are clean in every continuation if and
    only if no upload of it is in flight across the tombstone.
   */
  lemma TombstoneExactly(c: Codec, w: World, step: Step, k: Key)
    requires Lawful(c) && Inv(c, w) && k in w.entries && !IsGone(w, k) && IsGone(Next(c, w, step), k)
    ensures AlwaysPurgedClean(c, Next(c, w, step), k) <==>
            forall p | p in w.processes :: !PendingPut(c, w.processes[p], k)
  {
    var v := Next(c, w, step);
    StepKeeps(c, w, step);
    PurgeExactly(c, v, k);
    OnlyOwnersBury(c, w, step, k);
    BuriedNotPurged(c, w, step, k);
    NoPurgeBeforeTombstone(c, w, k);
    assert v.processes == w.processes;
    SettledAtTombstone(c, v, k);
  }

  lemma NoPurgeBeforeTombstone(c: Codec, w: World, k: Key)
    requires Inv(c, w) && k in w.entries && !IsGone(w, k)
    ensures forall p | p in w.processes :: !PurgeIn(w.processes[p], k)
  {
    forall p | p in w.processes ensures !PurgeIn(w.processes[p], k) { assert ProcessOk(c, w, w.processes[p]); }
  }

  lemma SettledAtTombstone(c: Codec, w: World, k: Key)
    requires IsGone(w, k) && !IsPurged(w, k) && forall p | p in w.processes :: !PurgeIn(w.processes[p], k)
    ensures Settled(c, w, k) <==> forall p | p in w.processes :: !PendingPut(c, w.processes[p], k)
  {
  }

  lemma OnlyOwnersBury(c: Codec, w: World, step: Step, k: Key)
    requires k in w.entries && !IsGone(w, k) && IsGone(Next(c, w, step), k)
    ensures step.TombstoneStep? || step.RevokeStep?
  {
  }

  lemma BuriedNotPurged(c: Codec, w: World, step: Step, k: Key)
    requires k in w.entries && !IsGone(w, k) && (step.TombstoneStep? || step.RevokeStep?)
    ensures Next(c, w, step).processes == w.processes && !IsPurged(Next(c, w, step), k)
  {
  }

  // ---------------------------------------------------------------- an object left behind

  /** The artifact is purged, its object is stored, and no purge that read it as tombstoned is left. */
  predicate Stranded(w: World, k: Key) {
    && IsPurged(w, k) && HasObject(w, k)
    && forall p | p in w.processes :: !(w.processes[p].PurgeFound? && KeyOf(w.processes[p].entry) == k)
  }

  lemma NoNewPurge(c: Codec, w: World, step: Step, k: Key, r: nat)
    requires Inv(c, w) && IsPurged(w, k)
    requires var v := Next(c, w, step); r in v.processes && v.processes[r].PurgeFound? && KeyOf(v.processes[r].entry) == k
    ensures r in w.processes && w.processes[r].PurgeFound? && KeyOf(w.processes[r].entry) == k
  {
    OnlyFindsStartPurges(c, w, step, r);
    if step.PurgeFind? {
      var l := Key(step.scope.tenantId, step.artifactId);
      if l in w.entries { assert EntryOk(c, w, l); }
    }
  }

  lemma OnlyFindsStartPurges(c: Codec, w: World, step: Step, r: nat)
    requires var v := Next(c, w, step); r in v.processes && v.processes[r].PurgeFound?
    ensures (r in w.processes && w.processes[r] == Next(c, w, step).processes[r]) || (step.PurgeFind? && step.p == r && step.p !in w.processes)
  {
  }

  lemma OnlyPurgesDelete(c: Codec, w: World, step: Step, o: ObjectKey)
    requires o in w.objects
    requires !(step.PurgeDelete? && step.p in w.processes && w.processes[step.p].PurgeFound? && w.processes[step.p].entry.objectKey == o)
    ensures o in Next(c, w, step).objects
  {
  }

  lemma StrandedKept(c: Codec, w: World, step: Step, k: Key)
    requires Lawful(c) && Inv(c, w) && Stranded(w, k)
    ensures Stranded(Next(c, w, step), k)
  {
    var v := Next(c, w, step);
    StateAdvances(c, w, step, k);
    if step.PurgeDelete? && step.p in w.processes && w.processes[step.p].PurgeFound? {
      assert ProcessOk(c, w, w.processes[step.p]);
      if KeyOf(w.processes[step.p].entry) != k { KeysDiffer(c, w, w.processes[step.p].entry, k); }
    }
    OnlyPurgesDelete(c, w, step, w.entries[k].entry.objectKey);
    forall r | r in v.processes && v.processes[r].PurgeFound? ensures KeyOf(v.processes[r].entry) != k {
      if KeyOf(v.processes[r].entry) == k { NoNewPurge(c, w, step, k, r); }
    }
  }

  lemma {:induction false} StrandedForever(c: Codec, w: World, schedule: seq<Step>, k: Key)
    requires Lawful(c) && Inv(c, w) && Stranded(w, k)
    ensures Stranded(Run(c, w, schedule), k)
    decreases |schedule|
  {
    if schedule != [] {
      StrandedKept(c, w, schedule[0], k);
      StepKeeps(c, w, schedule[0]);
      StrandedForever(c, Next(c, w, schedule[0]), schedule[1..], k);
    }
  }

  /**
    An object stored behind a recorded purge can still be deleted if and only if a purge that read
    the artifact as tombstoned is under way; the retry of pending purges, which lists tombstoned
    artifacts only, never reaches it.
   */
  lemma StrandedExactly(c: Codec, w: World, k: Key)
    requires Lawful(c) && Inv(c, w) && IsPurged(w, k) && HasObject(w, k)
    ensures (forall schedule :: HasObject(Run(c, w, schedule), k)) <==> Stranded(w, k)
  {
    if Stranded(w, k) {
      forall schedule ensures HasObject(Run(c, w, schedule), k) { StrandedForever(c, w, schedule, k); }
    } else {
      var p :| p in w.processes && w.processes[p].PurgeFound? && KeyOf(w.processes[p].entry) == k;
      RunOne(c, w, PurgeDelete(p));
      LatePurgeDeletes(c, w, p, k);
    }
  }

  lemma LatePurgeDeletes(c: Codec, w: World, p: nat, k: Key)
    requires Inv(c, w) && k in w.entries && p in w.processes && w.processes[p].PurgeFound? && KeyOf(w.processes[p].entry) == k
    ensures !HasObject(Next(c, w, PurgeDelete(p)), k)
  {
    assert ProcessOk(c, w, w.processes[p]);
  }
}
