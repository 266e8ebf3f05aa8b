/**
  The policy evaluation's observation of one artifact: find, get, decrypt, find again.  Inside the
  lifecycle protocol its answer is decided by the two catalog records and the clock alone: what
  the object store returns in between never changes it.
 */
module PolicyReader {
  import opened Prelude
  import J = Json
  import opened ArtifactContract
  import opened Envelope
  import opened Catalog
  import opened Protocol
  import opened ProtocolSafety
  import opened Lifecycle
  import opened Stores
  import opened UseCases
  import opened Maintenance

  const MAX_READ_BYTES := 16 * 1024 * 1024 + OBJECT_OVERHEAD

  /** The input once its fields have been parsed; `supported` is the artifact-reference schema's answer. */
  datatype Input = Input(
    scope: Scope, tenantId: Id, mayRead: bool, mayReadRestricted: bool, environmentAllowed: bool,
    reference: ContentReference, supported: bool, evaluationTime: Time, maxReadBytes: int)

  datatype Reason =
    | ReferenceUnsupported | RecordInvalid | ReferenceMismatch | NotYetAvailable | NotAvailable(state: State)
    | RetentionExpired | ObjectMissing | ContentIntegrityFailed

  datatype Observation = Verified(sha256: J.Text, sizeBytes: nat) | Missing | Unavailable(reason: Reason)

  datatype Usage = Usage(catalogReads: nat, objectReads: nat, objectBytes: nat)

  /** `record` stands for the catalog record and its digest. */
  datatype Read = Read(startedAt: Time, completedAt: Time, record: Option<CatalogEntry>, observation: Observation,
      usage: Usage)

  datatype ReadError = InputInvalid | Forbidden | ClockInvalid | ReadLimit | SourceRevisionChanged | ProtectionFailed

  datatype Inspection = Ready(entry: CatalogEntry) | Observed(record: Option<CatalogEntry>,
      observation: Observation) | Denied

  // ---------------------------------------------------------------- catalog inspection

  /** catalogRecord, apart from the formats of single fields. */
  predicate RecordValid(c: Codec, e: CatalogEntry) {
    && c.valid(e.metadata)
    && (e.receipt.Some? ==> e.receipt.value.sizeBytes == e.metadata.contentReference.sizeBytes + OBJECT_OVERHEAD)
    && (e.metadata.state == Available ==> e.receipt.Some?)
    && (e.ownership.Some? ==>
          && e.ownership.value.artifactId == e.metadata.contentReference.artifactId
          && e.ownership.value.scope == e.metadata.scope
          && e.ownership.value.boundAt >= e.metadata.createdAt)
  }

  predicate Before(t: Option<Time>, limit: Time) { t.Some? ==> t.value <= limit }

  /** Every recorded time has been reached by now, and the artifact existed at the evaluation time. */
  predicate InTime(e: CatalogEntry, observedAt: Time, evaluationTime: Time) {
    && e.metadata.createdAt <= observedAt && Before(e.metadata.availableAt, observedAt)
    && Before(e.metadata.tombstonedAt, observedAt) && Before(e.metadata.purgedAt, observedAt)
    && (e.ownership.Some? ==> e.ownership.value.boundAt <= observedAt)
    && e.metadata.createdAt <= evaluationTime && Before(e.metadata.availableAt, evaluationTime)
  }

  predicate Expired(e: CatalogEntry, at: Time) { e.metadata.retention.Expire? && e.metadata.retention.expiresAt.key <= at }

  function Inspect(c: Codec, input: Input, found: Option<CatalogEntry>, observedAt: Time): Inspection {
    if !input.supported then Observed(None, Unavailable(ReferenceUnsupported)) else
    match found
    case None => Observed(None, Missing)
    case Some(e) =>
      if !RecordValid(c, e) then Observed(None, Unavailable(RecordInvalid))
      else if e.metadata.scope != input.scope then Observed(None, Unavailable(ReferenceMismatch))
      else if e.metadata.contentReference.classification == Ascii("restricted") && !input.mayReadRestricted then Denied
      else if e.metadata.contentReference != input.reference then Observed(None, Unavailable(ReferenceMismatch))
      else if !InTime(e, observedAt, input.evaluationTime) then Observed(Some(e), Unavailable(NotYetAvailable))
      else if e.metadata.state != Available then Observed(Some(e), Unavailable(NotAvailable(e.metadata.state)))
      else if Expired(e, observedAt) then Observed(Some(e), Unavailable(Reason.RetentionExpired))
      else Ready(e)
  }

  predicate Authorized(input: Input) {
    && input.mayRead && input.tenantId == input.scope.tenantId && input.environmentAllowed
    && (input.reference.classification == Ascii("restricted") ==> input.mayReadRestricted)
  }

  // ---------------------------------------------------------------- what the two records decide

  /** A clock reading is refused when it fails or runs backwards. */
  function ReadClock(reading: Option<Time>, last: Option<Time>): Result<Time, ReadError> {
    if reading.None? || (last.Some? && reading.value < last.value) then Err(ClockInvalid) else Ok(reading.value)
  }

  function Completed(startedAt: Time, last: Time, reading: Option<Time>, record: Option<CatalogEntry>,
      observation: Observation, usage: Usage): Result<Read, ReadError> {
    match ReadClock(reading, Some(last))
    case Err(error) => Err(error)
    case Ok(completedAt) =>
      var late := observation.Verified? && record.Some? && Expired(record.value, completedAt);
      Ok(Read(startedAt, completedAt, record, if late then Unavailable(Reason.RetentionExpired) else observation, usage))
  }

  /** The answer, from the records of the two finds and the clock; no object is looked at. */
  function Decide(c: Codec, input: Input, first: Option<CatalogEntry>, second: Option<CatalogEntry>,
      clock: nat -> Option<Time>): Result<Read, ReadError> {
    if input.maxReadBytes < 0 || input.maxReadBytes > MAX_READ_BYTES then Err(InputInvalid)
    else if !Authorized(input) then Err(Forbidden)
    else
      match ReadClock(clock(0), None)
      case Err(error) => Err(error)
      case Ok(startedAt) =>
        if input.evaluationTime > startedAt then Err(InputInvalid)
        else if !input.supported then Completed(startedAt, startedAt, clock(1), None, Unavailable(ReferenceUnsupported), Usage(0, 0, 0))
        else
          DecideSupported(c, input, first, second, clock, startedAt)
  }

  function DecideSupported(c: Codec, input: Input, first: Option<CatalogEntry>, second: Option<CatalogEntry>,
      clock: nat -> Option<Time>, startedAt: Time): Result<Read, ReadError> {
    match ReadClock(clock(1), Some(startedAt))
    case Err(error) => Err(error)
    case Ok(observedAt) =>
      match Inspect(c, input, first, observedAt)
      case Denied => Err(Forbidden)
      case Observed(record, observation) => Completed(startedAt, observedAt, clock(2), record, observation, Usage(1, 0, 0))
      case Ready(e) =>
        if input.reference.sizeBytes + OBJECT_OVERHEAD > input.maxReadBytes then Err(ReadLimit)
        else DecideContent(input, e, second, clock(2), startedAt, observedAt)
  }

  function DecideContent(input: Input, e: CatalogEntry, second: Option<CatalogEntry>, reading: Option<Time>,
      startedAt: Time, observedAt: Time): Result<Read, ReadError> {
    var size := input.reference.sizeBytes;
    if second != Some(e) then Err(SourceRevisionChanged)
    else Completed(startedAt, observedAt, reading, Some(e), Verified(input.reference.sha256, size), Usage(2, 1, size + OBJECT_OVERHEAD))
  }

  function FoundIn(w: World, input: Input): Option<CatalogEntry> { Catalog.Find(w.entries, input.scope,
      input.reference.artifactId) }

  // ---------------------------------------------------------------- the reader

  lemma InspectReady(c: Codec, input: Input, found: Option<CatalogEntry>, observedAt: Time)
    ensures var i := Inspect(c, input, found, observedAt);
            i.Ready? ==> found == Some(i.entry) && RecordValid(c, i.entry) && i.entry.metadata.state == Available
                         && i.entry.metadata.contentReference == input.reference && i.entry.metadata.scope == input.scope
  {
  }

  class Reader {
    const stores: Backend

    constructor (stores: Backend)
      ensures this.stores == stores
    {
      this.stores := stores;
    }

    /**
      Get the object, check it against the receipt, decrypt it and check the content.  The object is
      absent only when the artifact is gone; otherwise every check passes.
     */
    method Observe(ghost w0: World, input: Input, e: CatalogEntry, g1: seq<Step>) returns (r: Result<(Observation,
        nat), ReadError>)
      requires stores.Valid() && stores.world == w0 && FoundIn(w0, input) == Some(e) && e.metadata.state == Available
      requires e.metadata.contentReference == input.reference && e.metadata.scope == input.scope
      requires input.reference.sizeBytes + OBJECT_OVERHEAD <= input.maxReadBytes
      modifies stores
      ensures stores.Valid() && stores.world == Run(stores.codec, w0, g1)
      ensures r.Ok?
      ensures r == Ok((Verified(input.reference.sha256, input.reference.sizeBytes), input.reference.sizeBytes + OBJECT_OVERHEAD))
              || IsGone(stores.world, KeyOf(e))
    {
      stores.Await(g1);
      FetchedFits(stores.codec, w0, stores.world, e);
      var supplied := stores.Get(e.objectKey);
      if supplied.None? { return Ok((Unavailable(ObjectMissing), 0)); }
      r := Check(input, e, supplied.value);
    }

    /**
      readPolicyEvaluationArtifact, with the others taking `g1` between its first find and its get
      and `g2` between its get and its second find.  It never lets a protection error through, never
      reports a missing object or failed content, and answers what the two records decide.
     */
    method ReadArtifact(input: Input, clock: nat -> Option<Time>, g1: seq<Step>, g2: seq<Step>)
        returns (r: Result<Read, ReadError>)
      requires stores.Valid()
      modifies stores
      ensures stores.Valid()
      ensures var w0 := old(stores.world);
              var w2 := Run(stores.codec, Run(stores.codec, w0, g1), g2);
              r == Decide(stores.codec, input, FoundIn(w0, input), FoundIn(w2, input), clock)
    {
      if input.maxReadBytes < 0 || input.maxReadBytes > MAX_READ_BYTES { return Err(InputInvalid); }
      if !Authorized(input) { return Err(Forbidden); }
      var started := ReadClock(clock(0), None);
      if started.Err? { return Err(started.error); }
      if input.evaluationTime > started.value { return Err(InputInvalid); }
      if !input.supported {
        r := Completed(started.value, started.value, clock(1), None, Unavailable(ReferenceUnsupported), Usage(0, 0, 0));
        return;
      }
      r := ReadSupported(input, clock, started.value, g1, g2);
    }

    method ReadSupported(input: Input, clock: nat -> Option<Time>, startedAt: Time, g1: seq<Step>, g2: seq<Step>)
        returns (r: Result<Read, ReadError>)
      requires stores.Valid() && input.supported
      modifies stores
      ensures stores.Valid()
      ensures var w0 := old(stores.world);
              var w2 := Run(stores.codec, Run(stores.codec, w0, g1), g2);
              r == DecideSupported(stores.codec, input, FoundIn(w0, input), FoundIn(w2, input), clock, startedAt)
    {
      var catalogReads := 0;
      catalogReads := catalogReads + 1;
      var raw := stores.Find(input.scope, input.reference.artifactId);
      var observed := ReadClock(clock(1), Some(startedAt));
      if observed.Err? { return Err(observed.error); }
      var inspected := Inspect(stores.codec, input, raw, observed.value);
      match inspected {
        case Denied => r := Err(Forbidden);
        case Observed(record, observation) =>
          r := Completed(startedAt, observed.value, clock(2), record, observation, Usage(catalogReads, 0, 0));
        case Ready(e) =>
          InspectReady(stores.codec, input, raw, observed.value);
          if input.reference.sizeBytes + OBJECT_OVERHEAD > input.maxReadBytes { return Err(ReadLimit); }
          r := ReadContent(input, e, clock(2), startedAt, observed.value, catalogReads, g1, g2);
      }
    }

    method ReadContent(input: Input, e: CatalogEntry, reading: Option<Time>, startedAt: Time, observedAt: Time,
        catalogReads: nat, g1: seq<Step>, g2: seq<Step>)
        returns (r: Result<Read, ReadError>)
      requires stores.Valid() && FoundIn(stores.world, input) == Some(e) && e.metadata.state == Available
      requires RecordValid(stores.codec, e) && e.metadata.contentReference == input.reference && e.metadata.scope == input.scope
      requires input.reference.sizeBytes + OBJECT_OVERHEAD <= input.maxReadBytes && catalogReads == 1
      modifies stores
      ensures stores.Valid()
      ensures var w2 := Run(stores.codec, Run(stores.codec, old(stores.world), g1), g2);
              r == DecideContent(input, e, FoundIn(w2, input), reading, startedAt, observedAt)
    {
      ghost var w0 := stores.world;
      var observed := Observe(w0, input, e, g1);
      ghost var w1 := stores.world;
      stores.Await(g2);
      GoneDiffers(w1, stores.world, input, e);
      r := Conclude(input, e, observed, reading, startedAt, observedAt, catalogReads);
    }

    /** The second find: a record that is not the first one, byte for byte, fails the capture. */
    method Conclude(input: Input, e: CatalogEntry, observed: Result<(Observation, nat), ReadError>,
        reading: Option<Time>, startedAt: Time, observedAt: Time, catalogReads: nat)
        returns (r: Result<Read, ReadError>)
      requires RecordValid(stores.codec, e) && catalogReads == 1 && observed.Ok?
      requires observed.value == (Verified(input.reference.sha256, input.reference.sizeBytes), input.reference.sizeBytes + OBJECT_OVERHEAD)
               || FoundIn(stores.world, input) != Some(e)
      ensures r == DecideContent(input, e, FoundIn(stores.world, input), reading, startedAt, observedAt)
    {
      var after := stores.Find(input.scope, input.reference.artifactId);
      match observed {
        case Err(error) => r := Err(error);
        case Ok((observation, objectBytes)) =>
          if after.None? || !RecordValid(stores.codec, after.value) || after.value != e { return Err(SourceRevisionChanged); }
          r := Completed(startedAt, observedAt, reading, Some(e), observation, Usage(catalogReads + 1, 1, objectBytes));
      }
    }

    /** The checks on the bytes that were supplied, in the order they are made. */
    method Check(input: Input, e: CatalogEntry, bytes: Bytes) returns (r: Result<(Observation, nat), ReadError>)
      requires Fits(stores.codec, e, bytes) && e.metadata.contentReference == input.reference
      requires input.reference.sizeBytes + OBJECT_OVERHEAD <= input.maxReadBytes
      ensures r == Ok((Verified(input.reference.sha256, input.reference.sizeBytes), input.reference.sizeBytes + OBJECT_OVERHEAD))
    {
      var c := stores.codec;
      var failed: Result<(Observation, nat), ReadError> := Ok((Unavailable(ContentIntegrityFailed), |bytes|));
      var content := c.decrypt(e.metadata, e.plan, bytes);
      if |bytes| > input.maxReadBytes {
        r := Err(ReadLimit);
      } else if |bytes| != input.reference.sizeBytes + OBJECT_OVERHEAD || e.receipt.None? || c.receipt(bytes).sha256 != e.receipt.value.sha256 {
        r := failed;
      } else if content.None? {
        r := Err(ProtectionFailed);
      } else if c.matches(e.metadata, content.value) {
        r := Ok((Verified(input.reference.sha256, input.reference.sizeBytes), |bytes|));
      } else {
        r := failed;
      }
    }
  }

  /** A tombstone never comes undone, so the second find sees that the record has changed. */
  lemma GoneDiffers(w: World, v: World, input: Input, e: CatalogEntry)
    requires Evolves(w, v) && e.metadata.state == Available
    requires e.metadata.scope == input.scope && e.metadata.contentReference == input.reference
    ensures IsGone(w, KeyOf(e)) ==> FoundIn(v, input) != Some(e)
  {
    if IsGone(w, KeyOf(e)) { assert EntryEvolves(w, v, KeyOf(e)); }
  }

  /** The bytes pass every check there is. */
  predicate Fits(c: Codec, e: CatalogEntry, bytes: Bytes) {
    && |bytes| == e.metadata.contentReference.sizeBytes + OBJECT_OVERHEAD && e.receipt == Some(c.receipt(bytes))
    && Decrypts(c, e.metadata, e.plan, bytes)
  }

  lemma FetchedFits(c: Codec, w: World, v: World, e: CatalogEntry)
    requires Lawful(c) && StoresOk(c, w) && StoresOk(c, v) && Evolves(w, v)
    requires KeyOf(e) in w.entries && w.entries[KeyOf(e)].entry == e && e.metadata.state == Available
    ensures if e.objectKey in v.objects then Fits(c, e, v.objects[e.objectKey]) else IsGone(v, KeyOf(e))
  {
    ReadBytes(c, w, v, KeyOf(e));
    HoldsFits(c, w, e);
  }

  lemma HoldsFits(c: Codec, w: World, e: CatalogEntry)
    requires Lawful(c) && Holds(c, w, e)
    ensures Fits(c, e, w.objects[e.objectKey])
  {
  }

  // ---------------------------------------------------------------- what an answer means

  /** A completed read, whatever it observed. */
  predicate Sound(input: Input, first: Option<CatalogEntry>, second: Option<CatalogEntry>, read: Read) {
    && input.evaluationTime <= read.startedAt <= read.completedAt
    && read.usage.objectBytes <= input.maxReadBytes
    && (read.usage.objectReads == 1 <==> read.usage.catalogReads == 2) && read.usage.objectReads <= 1
    && read.observation != Unavailable(ObjectMissing) && read.observation != Unavailable(ContentIntegrityFailed)
    && (read.observation.Verified? ==>
          && first.Some? && first == second == read.record
          && var e := first.value;
             && read.observation == Verified(input.reference.sha256, input.reference.sizeBytes)
             && e.metadata.contentReference == input.reference && e.metadata.scope == input.scope
             && e.metadata.state == Available && InTime(e, read.completedAt, input.evaluationTime)
             && !Expired(e, read.completedAt)
             && read.usage == Usage(2, 1, input.reference.sizeBytes + OBJECT_OVERHEAD))
  }

  lemma DecideIsSound(c: Codec, input: Input, first: Option<CatalogEntry>, second: Option<CatalogEntry>,
      clock: nat -> Option<Time>)
    ensures var r := Decide(c, input, first, second, clock);
            && (r.Ok? ==> Sound(input, first, second, r.value))
            && r != Err(ProtectionFailed)
            && (r == Err(SourceRevisionChanged) ==> first != second)
  {
  }

  /** At every moment of a run that starts and ends with the same record, that was the record. */
  lemma Bracketed(c: Codec, w: World, schedule: seq<Step>, i: nat, k: Key)
    requires Lawful(c) && Inv(c, w) && i <= |schedule| && k in w.entries
    requires k in Run(c, w, schedule).entries && Run(c, w, schedule).entries[k].entry == w.entries[k].entry
    ensures var v := Run(c, w, schedule[..i]);
            Inv(c, v) && k in v.entries && v.entries[k].entry == w.entries[k].entry
  {
    RunKeeps(c, w, schedule[..i]);
    RunKeeps(c, Run(c, w, schedule[..i]), schedule[i..]);
    SplitRun(c, w, schedule, i);
    Unchanged(w, Run(c, w, schedule[..i]), Run(c, w, schedule), k);
  }

  lemma SplitRun(c: Codec, w: World, schedule: seq<Step>, i: nat)
    requires i <= |schedule|
    ensures Run(c, w, schedule) == Run(c, Run(c, w, schedule[..i]), schedule[i..])
  {
    assert schedule == schedule[..i] + schedule[i..];
    RunConcat(c, w, schedule[..i], schedule[i..]);
  }

  lemma Unchanged(u: World, v: World, w: World, k: Key)
    requires Evolves(u, v) && Evolves(v, w) && k in u.entries && k in w.entries && u.entries[k].entry == w.entries[k].entry
    ensures k in v.entries && v.entries[k].entry == u.entries[k].entry
  {
    assert EntryEvolves(u, v, k) && EntryEvolves(v, w, k);
  }

  /**
    A verified answer is a stable snapshot: at every moment between the two finds the artifact was
    available under exactly this record, and its object was stored, matched its receipt and
    decrypted to the reserved content.
   */
  lemma VerifiedThroughout(c: Codec, w: World, input: Input, clock: nat -> Option<Time>, g1: seq<Step>, g2: seq<Step>,
      i: nat)
    requires Lawful(c) && Inv(c, w) && i <= |g1 + g2|
    requires var r := Decide(c, input, FoundIn(w, input), FoundIn(Run(c, Run(c, w, g1), g2), input), clock);
             r.Ok? && r.value.observation.Verified?
    ensures var v := Run(c, w, (g1 + g2)[..i]);
            var e := FoundIn(w, input);
            e.Some? && FoundIn(v, input) == e && e.value.metadata.state == Available && Holds(c, v, e.value)
  {
    DecideIsSound(c, input, FoundIn(w, input), FoundIn(Run(c, Run(c, w, g1), g2), input), clock);
    RunConcat(c, w, g1, g2);
    var k := Key(input.scope.tenantId, input.reference.artifactId);
    var v := Run(c, w, (g1 + g2)[..i]);
    Bracketed(c, w, g1 + g2, i, k);
    RowHolds(c, v, k);
  }

  // ---------------------------------------------------------------- exactly when each answer is given

  /** A usable catalog record of an artifact, field by field. */
  predicate GoodRecord(c: Codec, e: CatalogEntry) {
    var m := e.metadata;
    && c.valid(m)
    && (e.receipt.None? ==> m.state != Available)
    && (e.receipt.None? || e.receipt.value.sizeBytes == m.contentReference.sizeBytes + 20)
    && (e.ownership.None? ||
        (e.ownership.value.artifactId == m.contentReference.artifactId && e.ownership.value.scope == m.scope
         && m.createdAt <= e.ownership.value.boundAt))
  }

  function Opt(t: Option<Time>): set<Time> { if t.Some? then {t.value} else {} }

  /** Every time on record. */
  function RecordedTimes(e: CatalogEntry): set<Time> {
    {e.metadata.createdAt} + Opt(e.metadata.availableAt) + Opt(e.metadata.tombstonedAt) + Opt(e.metadata.purgedAt)
    + (if e.ownership.Some? then {e.ownership.value.boundAt} else {})
  }

  predicate Due(e: CatalogEntry, observedAt: Time, evaluationTime: Time) {
    && (forall t | t in RecordedTimes(e) :: t <= observedAt)
    && (forall t | t in {e.metadata.createdAt} + Opt(e.metadata.availableAt) :: t <= evaluationTime)
  }

  /** The record is retained for ever, or its expiry is still ahead. */
  predicate Kept(e: CatalogEntry, at: Time) {
    match e.metadata.retention
    case Retain => true
    case Expire(expiresAt) => at < expiresAt.key
  }

  /** The first record is good and of this scope, and the caller may look at it. */
  predicate Visible(c: Codec, input: Input, first: Option<CatalogEntry>) {
    && first.Some? && GoodRecord(c, first.value) && first.value.metadata.scope == input.scope
    && (input.mayReadRestricted || first.value.metadata.contentReference.classification != Ascii("restricted"))
  }

  predicate Named(c: Codec, input: Input, first: Option<CatalogEntry>) {
    Visible(c, input, first) && first.value.metadata.contentReference == input.reference
  }

  /** Everything but the object and the second record speaks for the artifact. */
  predicate Eligible(c: Codec, input: Input, first: Option<CatalogEntry>, observedAt: Time) {
    && Named(c, input, first) && Due(first.value, observedAt, input.evaluationTime)
    && first.value.metadata.state == Available && Kept(first.value, observedAt)
  }

  lemma InspectExactly(c: Codec, input: Input, first: Option<CatalogEntry>, observedAt: Time)
    requires input.supported
    ensures var i := Inspect(c, input, first, observedAt);
            && (i == Observed(None, Missing) <==> first.None?)
            && (i == Observed(None, Unavailable(RecordInvalid)) <==> first.Some? && !GoodRecord(c, first.value))
            && (i == Denied <==> first.Some? && GoodRecord(c, first.value) && first.value.metadata.scope == input.scope
                                 && !Visible(c, input, first))
            && (i == Observed(None, Unavailable(ReferenceMismatch)) <==>
                  first.Some? && GoodRecord(c, first.value)
                  && (first.value.metadata.scope != input.scope || (Visible(c, input, first) && !Named(c, input, first))))
            && (i == Observed(first, Unavailable(NotYetAvailable)) <==>
                  Named(c, input, first) && !Due(first.value, observedAt, input.evaluationTime))
            && (forall s :: i == Observed(first, Unavailable(NotAvailable(s))) <==>
                  Named(c, input, first) && Due(first.value, observedAt, input.evaluationTime)
                  && first.value.metadata.state == s != Available)
            && (i == Observed(first, Unavailable(Reason.RetentionExpired)) <==>
                  Named(c, input, first) && Due(first.value, observedAt, input.evaluationTime)
                  && first.value.metadata.state == Available && !Kept(first.value, observedAt))
            && (i.Ready? <==> Eligible(c, input, first, observedAt))
            && (i.Ready? ==> Some(i.entry) == first)
  {
    if first.Some? {
      var e := first.value;
      DueExactly(e, observedAt, input.evaluationTime);
      assert RecordValid(c, e) <==> GoodRecord(c, e);
    }
  }

  lemma DueExactly(e: CatalogEntry, observedAt: Time, evaluationTime: Time)
    ensures InTime(e, observedAt, evaluationTime) <==> Due(e, observedAt, evaluationTime)
  {
    var m := e.metadata;
    assert m.availableAt.Some? ==> m.availableAt.value in RecordedTimes(e) && m.availableAt.value in {m.createdAt} + Opt(m.availableAt);
    assert m.tombstonedAt.Some? ==> m.tombstonedAt.value in RecordedTimes(e);
    assert m.purgedAt.Some? ==> m.purgedAt.value in RecordedTimes(e);
    assert e.ownership.Some? ==> e.ownership.value.boundAt in RecordedTimes(e);
    assert m.createdAt in RecordedTimes(e) && m.createdAt in {m.createdAt} + Opt(m.availableAt);
  }

  /** An input whose byte ceiling is in range and whose principal may observe the artifact. */
  predicate Admitted(input: Input) {
    && 0 <= input.maxReadBytes <= 16777236
    && input.mayRead && input.scope.tenantId == input.tenantId && input.environmentAllowed
    && (input.mayReadRestricted || input.reference.classification != Ascii("restricted"))
  }

  predicate Hidden(c: Codec, input: Input, first: Option<CatalogEntry>) {
    && first.Some? && GoodRecord(c, first.value) && first.value.metadata.scope == input.scope
    && !Visible(c, input, first)
  }

  predicate FitsCeiling(input: Input) { input.reference.sizeBytes + 20 <= input.maxReadBytes }

  /** The observation that the two records and the clock call for, reason by reason. */
  ghost predicate Observes(c: Codec, input: Input, first: Option<CatalogEntry>, t1: Time, t2: Time, o: Observation) {
    && (o == Missing <==> first.None?)
    && (o == Unavailable(RecordInvalid) <==> first.Some? && !GoodRecord(c, first.value))
    && (o == Unavailable(ReferenceMismatch) <==>
          first.Some? && GoodRecord(c, first.value)
          && (first.value.metadata.scope != input.scope || (Visible(c, input, first) && !Named(c, input, first))))
    && (o == Unavailable(NotYetAvailable) <==> Named(c, input, first) && !Due(first.value, t1, input.evaluationTime))
    && (forall s :: o == Unavailable(NotAvailable(s)) <==>
          Named(c, input, first) && Due(first.value, t1, input.evaluationTime) && first.value.metadata.state == s != Available)
    && (o == Unavailable(Reason.RetentionExpired) <==>
          Named(c, input, first) && Due(first.value, t1, input.evaluationTime)
          && first.value.metadata.state == Available && (!Kept(first.value, t1) || !Kept(first.value, t2)))
    && (o.Verified? <==> Eligible(c, input, first, t1) && Kept(first.value, t2))
    && (o.Verified? ==> o.sha256 == input.reference.sha256 && o.sizeBytes == input.reference.sizeBytes)
    && o != Unavailable(ObjectMissing) && o != Unavailable(ContentIntegrityFailed) && o != Unavailable(ReferenceUnsupported)
  }

  /**
    Exactly when an admitted read of a supported reference, with a clock that runs, answers what.  It
    is verified if and only if both finds return one good record of this scope and reference, which
    the caller may see, is available, was so at the evaluation time, is kept beyond the completion
    time, and fits the ceiling.
   */
  lemma DecideExactly(c: Codec, input: Input, first: Option<CatalogEntry>, second: Option<CatalogEntry>,
      clock: nat -> Option<Time>, t0: Time, t1: Time, t2: Time)
    requires Admitted(input) && input.supported
    requires clock(0) == Some(t0) && clock(1) == Some(t1) && clock(2) == Some(t2)
    requires input.evaluationTime <= t0 <= t1 <= t2
    ensures var r := Decide(c, input, first, second, clock);
            var eligible := Eligible(c, input, first, t1);
            && (r == Err(Forbidden) <==> Hidden(c, input, first))
            && (r == Err(ReadLimit) <==> eligible && !FitsCeiling(input))
            && (r == Err(SourceRevisionChanged) <==> eligible && FitsCeiling(input) && first != second)
            && (r.Ok? <==> !Hidden(c, input, first) && (eligible ==> FitsCeiling(input) && first == second))
            && (r.Ok? ==>
                  && r.value.startedAt == t0 && r.value.completedAt == t2
                  && Observes(c, input, first, t1, t2, r.value.observation)
                  && r.value.record == (if Named(c, input, first) then first else None)
                  && r.value.usage == (if eligible then Usage(2, 1, input.reference.sizeBytes + 20) else Usage(1, 0, 0)))
  {
    InspectExactly(c, input, first, t1);
    DecidedByInspection(c, input, first, second, clock, t0, t1, t2);
    InspectionKinds(c, input, first, t1);
  }

  lemma InspectionKinds(c: Codec, input: Input, first: Option<CatalogEntry>, t1: Time)
    requires input.supported
    ensures var i := Inspect(c, input, first, t1);
            i.Observed? ==> !i.observation.Verified? && i.observation != Unavailable(ObjectMissing)
                            && i.observation != Unavailable(ContentIntegrityFailed)
                            && i.observation != Unavailable(ReferenceUnsupported)
                            && (i.record == first || i.record == None)
                            && (i.record.Some? <==> Named(c, input, first))
  {
    if first.Some? { assert RecordValid(c, first.value) <==> GoodRecord(c, first.value); }
  }

  lemma DecidedByInspection(c: Codec, input: Input, first: Option<CatalogEntry>, second: Option<CatalogEntry>,
      clock: nat -> Option<Time>, t0: Time, t1: Time, t2: Time)
    requires Admitted(input) && input.supported
    requires clock(0) == Some(t0) && clock(1) == Some(t1) && clock(2) == Some(t2)
    requires input.evaluationTime <= t0 <= t1 <= t2
    ensures var r := Decide(c, input, first, second, clock);
            match Inspect(c, input, first, t1)
            case Denied => r == Err(Forbidden)
            case Observed(record, o) => !o.Verified? ==> r == Ok(Read(t0, t2, record, o, Usage(1, 0, 0)))
            case Ready(e) =>
              var size := input.reference.sizeBytes;
              if !FitsCeiling(input) then r == Err(ReadLimit)
              else if second != Some(e) then r == Err(SourceRevisionChanged)
              else
                var kept := if Kept(e, t2) then Verified(input.reference.sha256, size) else Unavailable(Reason.RetentionExpired);
                r == Ok(Read(t0, t2, Some(e), kept, Usage(2, 1, size + 20)))
  {
  }

  /** What is answered when the input is not admitted, the reference is not supported or the clock fails. */
  lemma DecideRefuses(c: Codec, input: Input, first: Option<CatalogEntry>, second: Option<CatalogEntry>,
      clock: nat -> Option<Time>)
    ensures var r := Decide(c, input, first, second, clock);
            && (input.maxReadBytes < 0 || input.maxReadBytes > 16777236 ==> r == Err(InputInvalid))
            && (0 <= input.maxReadBytes <= 16777236 && !Admitted(input) ==> r == Err(Forbidden))
            && (Admitted(input) && clock(0).None? ==> r == Err(ClockInvalid))
            && (Admitted(input) && clock(0).Some? ==>
                  var t0 := clock(0).value;
                  var fails := clock(1).None? || clock(1).value < t0;
                  if input.evaluationTime > t0 then r == Err(InputInvalid)
                  else if fails then r == Err(ClockInvalid)
                  else if !input.supported then
                    r == Ok(Read(t0, clock(1).value, None, Unavailable(ReferenceUnsupported), Usage(0, 0, 0)))
                  else
                    (clock(2).None? || clock(2).value < clock(1).value ==>
                       var eligible := Eligible(c, input, first, clock(1).value);
                       && (r == Err(Forbidden) <==> Hidden(c, input, first))
                       && (r == Err(ReadLimit) <==> eligible && !FitsCeiling(input))
                       && (r == Err(SourceRevisionChanged) <==> eligible && FitsCeiling(input) && first != second)
                       && (r == Err(ClockInvalid) <==>
                             !Hidden(c, input, first) && (eligible ==> FitsCeiling(input) && first == second))))
  {
    if clock(1).Some? && input.supported { InspectExactly(c, input, first, clock(1).value); }
  }
}
