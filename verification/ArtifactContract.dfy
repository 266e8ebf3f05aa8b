/**
  Artifact metadata and the rules every stored record must satisfy: which timestamps each
  lifecycle state carries, their order, and the order of redaction stages.
 */
module ArtifactContract {
  import opened Prelude
  import opened Json

  /** The order key of a timestamp. */
  type Time = int

  /** A timestamp as written, together with its order key. */
  datatype Instant = Instant(text: Text, key: Time)

  datatype Scope = Scope(tenantId: Text, projectId: Text, environmentId: Text)

  datatype Stage = Source | Ingest | RetentionStage

  datatype RedactionRecord = RedactionRecord(
    changedPaths: seq<Text>, matchCount: nat, rulesetId: Text, rulesetVersion: Text, stage: Stage)

  datatype Redaction = NotPerformed | NotRequired | Applied(records: seq<RedactionRecord>)

  datatype Retention = Retain | Expire(expiresAt: Instant)

  datatype ContentReference = ContentReference(
    artifactId: Text, classification: Text, mediaType: Text, redactedAt: Option<Stage>,
    sha256: Text, sizeBytes: nat)

  datatype State = Reserved | Available | Tombstoned | Purged

  datatype Metadata = Metadata(
    contentReference: ContentReference,
    redaction: Redaction,
    retention: Retention,
    scope: Scope,
    state: State,
    createdAt: Time,
    availableAt: Option<Time>,
    tombstonedAt: Option<Time>,
    purgedAt: Option<Time>)

  function Rank(stage: Stage): nat {
    match stage case Source => 0 case Ingest => 1 case RetentionStage => 2
  }

  /** Any later record belongs to the same or a later processing stage. */
  predicate StagesOrdered(records: seq<RedactionRecord>) {
    forall i, j | 0 <= i < j < |records| :: Rank(records[i].stage) <= Rank(records[j].stage)
  }

  function LatestStage(redaction: Redaction): Option<Stage> {
    if redaction.Applied? && redaction.records != [] then Some(redaction.records[|redaction.records| - 1].stage) else None
  }

  function Lifecycle(m: Metadata): seq<Option<Time>> {
    [Some(m.createdAt), m.availableAt, m.tombstonedAt, m.purgedAt]
  }

  /** No recorded lifecycle instant precedes an earlier one in the list. */
  predicate Chronological(times: seq<Option<Time>>) {
    forall i, j | 0 <= i < j < |times| && times[i].Some? && times[j].Some? :: times[i].value <= times[j].value
  }

  predicate StateRules(m: Metadata) {
    match m.state
    case Reserved => m.availableAt.None? && m.tombstonedAt.None? && m.purgedAt.None?
    case Available => m.availableAt.Some? && m.tombstonedAt.None? && m.purgedAt.None?
    case Tombstoned => m.tombstonedAt.Some? && m.purgedAt.None?
    case Purged => m.tombstonedAt.Some? && m.purgedAt.Some?
  }

  /** What ArtifactMetadataSchema accepts, apart from the formats of single fields. */
  predicate ValidMetadata(m: Metadata) {
    && StateRules(m)
    && Chronological(Lifecycle(m))
    && (m.redaction.Applied? ==> m.redaction.records != [] && StagesOrdered(m.redaction.records))
    && m.contentReference.redactedAt == LatestStage(m.redaction)
    && m.contentReference.sizeBytes > 0
  }

  /** The lifecycle times of each state; only a tombstone may come without availability before it. */
  predicate CarriesItsTimes(m: Metadata) {
    && (m.purgedAt.Some? <==> m.state == Purged)
    && (m.tombstonedAt.Some? <==> m.state == Tombstoned || m.state == Purged)
    && (m.state == Reserved ==> m.availableAt.None?) && (m.state == Available ==> m.availableAt.Some?)
    && (m.availableAt.Some? ==> m.createdAt <= m.availableAt.value)
    && (m.tombstonedAt.Some? ==> m.createdAt <= m.tombstonedAt.value)
    && (m.availableAt.Some? && m.tombstonedAt.Some? ==> m.availableAt.value <= m.tombstonedAt.value)
    && (m.purgedAt.Some? ==> m.tombstonedAt.value <= m.purgedAt.value)
  }

  /** The records of a redaction go from stage to stage without a step back, and the last one is the reference's. */
  predicate StagesFit(records: seq<RedactionRecord>, redactedAt: Option<Stage>) {
    && |records| > 0 && redactedAt == Some(records[|records| - 1].stage)
    && forall i | 0 < i < |records| ::
         (records[i].stage == Source ==> records[i - 1].stage == Source)
         && (records[i].stage == Ingest ==> records[i - 1].stage != RetentionStage)
  }

  lemma {:induction false} NeighboursOrdered(records: seq<RedactionRecord>, i: nat, j: nat)
    requires i < j < |records| && forall k | 0 < k < |records| :: Rank(records[k - 1].stage) <= Rank(records[k].stage)
    ensures Rank(records[i].stage) <= Rank(records[j].stage)
  {
    if i + 1 < j { NeighboursOrdered(records, i, j - 1); }
  }

  lemma StagesFitExactly(records: seq<RedactionRecord>, redactedAt: Option<Stage>)
    ensures StagesFit(records, redactedAt) <==>
              records != [] && StagesOrdered(records) && redactedAt == LatestStage(Applied(records))
  {
    if StagesFit(records, redactedAt) {
      forall i, j | 0 <= i < j < |records| ensures Rank(records[i].stage) <= Rank(records[j].stage) { NeighboursOrdered(records, i, j); }
    } else if StagesOrdered(records) {
      forall i | 0 < i < |records| ensures Rank(records[i - 1].stage) <= Rank(records[i].stage) {}
    }
  }

  /** Exactly what makes a record valid, by its fields: its times, its redaction and a size. */
  lemma ValidExactly(m: Metadata)
    ensures ValidMetadata(m) <==>
              && CarriesItsTimes(m) && m.contentReference.sizeBytes >= 1
              && (if m.redaction.Applied? then StagesFit(m.redaction.records, m.contentReference.redactedAt)
                  else m.contentReference.redactedAt.None?)
  {
    var times := Lifecycle(m);
    assert times[0] == Some(m.createdAt) && times[1] == m.availableAt && times[2] == m.tombstonedAt && times[3] == m.purgedAt;
    if m.redaction.Applied? { StagesFitExactly(m.redaction.records, m.contentReference.redactedAt); }
  }

  /** The lifecycle refinement: each present timestamp is compared with the previous present one only. */
  method CheckChronology(times: seq<Option<Time>>) returns (ok: bool)
    ensures ok <==> Chronological(times)
  {
    ok := true;
    var previous: Option<Time> := None;
    for i := 0 to |times|
      invariant ok ==> Chronological(times[..i])
      invariant !ok ==> !Chronological(times)
      invariant previous.None? ==> forall j | 0 <= j < i :: times[j].None?
      invariant ok && previous.Some? ==> forall j | 0 <= j < i && times[j].Some? :: times[j].value <= previous.value
      invariant previous.Some? ==> exists j | 0 <= j < i :: times[j] == previous
    {
      if times[i].Some? {
        if previous.Some? && times[i].value < previous.value {
          ok := false;
        }
        previous := times[i];
      }
    }
    assert times[..|times|] == times;
  }

  /** The redaction refinement: only neighbouring records are compared. */
  method CheckStages(records: seq<RedactionRecord>) returns (ok: bool)
    ensures ok <==> StagesOrdered(records)
  {
    ok := true;
    var i := 1;
    while i < |records|
      invariant 1 <= i
      invariant ok ==> forall a, b | 0 <= a < b < i && b < |records| :: Rank(records[a].stage) <= Rank(records[b].stage)
      invariant !ok ==> !StagesOrdered(records)
    {
      if Rank(records[i].stage) < Rank(records[i - 1].stage) {
        ok := false;
      }
      i := i + 1;
    }
  }
}
