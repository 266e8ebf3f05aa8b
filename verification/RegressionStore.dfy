/**
  The regression version store, as far as recorded interaction fixtures go: which artifacts a
  published fixture version owns, and which versions have had their content revoked.  Each call
  either replaces the whole tenant state or throws and leaves it alone.
 */
module RegressionStore {
  import opened Prelude
  import J = Json
  import opened ArtifactContract
  import opened Envelope
  import opened Catalog

  datatype Binding = Binding(reference: ContentReference, redaction: Redaction)

  /** `definition` stands for the digest-bound definition that republication compares. */
  datatype Version = Version(
    scope: Scope, fixtureId: Id, fixtureVersionId: Id, createdAt: Time, createdByPrincipalId: Id,
    definition: J.Text, artifacts: seq<Binding>)

  datatype Revocation = Revocation(
    scope: Scope, fixtureId: Id, fixtureVersionId: Id, reason: J.Text, revokedAt: Time, revokedByPrincipalId: Id)

  datatype Regression = Regression(
    metadata: map<Key, Metadata>,
    ownerships: map<Key, Ownership>,
    tombstones: map<Key, Tombstone>,
    versions: map<Key, Version>,
    revocations: map<Key, Revocation>)

  datatype StoreError =
    | InvalidVersion | BindingRefused | VersionConflict | Lineage | IntentFailure
    | RevocationConflict | VersionNotFound | Contract
    | ArtifactNotCoordinated | OwnershipNotCoordinated | CatalogRefused(error: Error)

  function ArtifactKey(scope: Scope, b: Binding): Key { Key(scope.tenantId, b.reference.artifactId) }

  function OwnerKey(o: Ownership): Key { Key(o.scope.tenantId, o.artifactId) }

  function VersionKey(v: Version): Key { Key(v.scope.tenantId, v.fixtureVersionId) }

  /** The version that an ownership names. */
  function OwningVersion(o: Ownership): Key { Key(o.scope.tenantId, o.fixtureVersionId) }

  predicate DistinctArtifacts(v: Version) {
    forall i, j | 0 <= i < j < |v.artifacts| :: v.artifacts[i].reference.artifactId != v.artifacts[j].reference.artifactId
  }

  function OwnershipBy(v: Version, b: Binding): Ownership {
    Ownership(b.reference.artifactId, v.createdAt, v.createdByPrincipalId, v.fixtureId, v.fixtureVersionId, v.scope)
  }

  function Expected(v: Version): (os: seq<Ownership>)
    ensures |os| == |v.artifacts| && forall i | 0 <= i < |os| :: os[i] == OwnershipBy(v, v.artifacts[i])
  {
    seq(|v.artifacts|, i requires 0 <= i < |v.artifacts| => OwnershipBy(v, v.artifacts[i]))
  }

  /** Every ownership of a stored version is on record; anything else is a contract violation. */
  predicate OwnershipsStored(r: Regression, v: Version) {
    forall i | 0 <= i < |Expected(v)| ::
      OwnerKey(Expected(v)[i]) in r.ownerships && r.ownerships[OwnerKey(Expected(v)[i])] == Expected(v)[i]
  }

  predicate Fits(t: Tombstone, o: Ownership, r: Revocation) {
    && t.artifactId == o.artifactId && t.actorPrincipalId == r.revokedByPrincipalId
    && t.occurredAt == r.revokedAt && t.reason == r.reason && t.trigger == FixtureRevocation
  }

  // ---------------------------------------------------------------- seeding

  function Seed(r: Regression, m: Metadata): Result<Regression, StoreError> {
    var k := Key(m.scope.tenantId, m.contentReference.artifactId);
    if k in r.metadata then (if r.metadata[k] == m then Ok(r) else Err(BindingRefused))
    else Ok(r.(metadata := r.metadata[k := m]))
  }

  // ---------------------------------------------------------------- publication

  /** What an artifact must look like, in the seeded record, to be bound. */
  predicate Bindable(r: Regression, v: Version, b: Binding) {
    var k := ArtifactKey(v.scope, b);
    && k in r.metadata && k !in r.ownerships
    && r.metadata[k].scope == v.scope && r.metadata[k].state == Available && r.metadata[k].retention.Retain?
    && r.metadata[k].contentReference == b.reference && r.metadata[k].redaction == b.redaction
  }

  function OwnAll(ownerships: map<Key, Ownership>, os: seq<Ownership>): map<Key, Ownership>
    decreases |os|
  {
    if os == [] then ownerships else OwnAll(ownerships[OwnerKey(os[0]) := os[0]], os[1..])
  }

  datatype Published = Published(created: bool, ownerships: seq<Ownership>, version: Version)

  datatype Reply<T> = Reply(store: Regression, result: Result<T, StoreError>)

  /**
    `lineage` is what the checks against the evidence-only versions answer, and `intentFails` the
    injected failure of the outbox insertion.
   */
  function Publish(r: Regression, v: Version, lineage: Option<StoreError>, intentFails: bool): Reply<Published> {
    var k := VersionKey(v);
    if !DistinctArtifacts(v) then Reply(r, Err(InvalidVersion))
    else if k in r.versions then
      if !OwnershipsStored(r, r.versions[k]) then Reply(r, Err(Contract))
      else if r.versions[k].definition != v.definition then Reply(r, Err(VersionConflict))
      else Reply(r, Ok(Published(false, Expected(r.versions[k]), r.versions[k])))
    else if lineage.Some? then Reply(r, Err(lineage.value))
    else if exists i :: 0 <= i < |v.artifacts| && !Bindable(r, v, v.artifacts[i]) then Reply(r, Err(BindingRefused))
    else if intentFails then Reply(r, Err(IntentFailure))
    else
      Reply(r.(versions := r.versions[k := v], ownerships := OwnAll(r.ownerships, Expected(v))),
            Ok(Published(true, Expected(v), v)))
  }

  // ---------------------------------------------------------------- revocation

  datatype Revoked = Revoked(created: bool, tombstones: seq<Tombstone>, version: Version)

  function Stones(r: Regression, os: seq<Ownership>): (ts: seq<Tombstone>)
    requires forall i | 0 <= i < |os| :: OwnerKey(os[i]) in r.tombstones
    ensures |ts| == |os| && forall i | 0 <= i < |ts| :: ts[i] == r.tombstones[OwnerKey(os[i])]
  {
    seq(|os|, i requires 0 <= i < |os| => r.tombstones[OwnerKey(os[i])])
  }

  /** The stored tombstones of a revoked version agree with its revocation. */
  predicate StonesStored(r: Regression, v: Version, revocation: Revocation) {
    forall i | 0 <= i < |Expected(v)| ::
      OwnerKey(Expected(v)[i]) in r.tombstones && Fits(r.tombstones[OwnerKey(Expected(v)[i])], Expected(v)[i], revocation)
  }

  /** Content of a stored version: its ownerships, and its tombstones once it is revoked. */
  function FindContent(r: Regression, scope: Scope, fixtureVersionId: Id): Result<Option<Version>, StoreError> {
    var k := Key(scope.tenantId, fixtureVersionId);
    if k !in r.versions || r.versions[k].scope != scope then Ok(None)
    else if !OwnershipsStored(r, r.versions[k]) then Err(Contract)
    else if k in r.revocations && !StonesStored(r, r.versions[k], r.revocations[k]) then Err(Contract)
    else Ok(Some(r.versions[k]))
  }

  predicate Revocable(r: Regression, o: Ownership, t: Tombstone, revocation: Revocation) {
    OwnerKey(o) in r.metadata && r.metadata[OwnerKey(o)].state == Available && Fits(t, o, revocation)
  }

  function Buried(m: Metadata, t: Tombstone): Metadata { m.(state := Tombstoned, tombstonedAt := Some(t.occurredAt)) }

  function RevokeAll(r: Regression, os: seq<Ownership>, ts: seq<Tombstone>): Regression
    requires |os| == |ts| && forall i | 0 <= i < |os| :: OwnerKey(os[i]) in r.metadata
    decreases |os|
  {
    if os == [] then r
    else
      var k := OwnerKey(os[0]);
      var next := r.(tombstones := r.tombstones[k := ts[0]], metadata := r.metadata[k := Buried(r.metadata[k], ts[0])]);
      RevokeAll(next, os[1..], ts[1..])
  }

  function Revoke(r: Regression, revocation: Revocation, ts: seq<Tombstone>, intentFails: bool): Reply<Revoked> {
    var k := Key(revocation.scope.tenantId, revocation.fixtureVersionId);
    if k !in r.versions || r.versions[k].scope != revocation.scope || r.versions[k].fixtureId != revocation.fixtureId then
      Reply(r, Err(VersionNotFound))
    else
      var v := r.versions[k];
      var os := Expected(v);
      if k in r.revocations then
        if r.revocations[k].reason != revocation.reason then Reply(r, Err(RevocationConflict))
        else if !OwnershipsStored(r, v) || !StonesStored(r, v, r.revocations[k]) then Reply(r, Err(Contract))
        else Reply(r, Ok(Revoked(false, Stones(r, os), v)))
      else if !OwnershipsStored(r, v) || |ts| != |os| then Reply(r, Err(Contract))
      else if exists i :: 0 <= i < |os| && !Revocable(r, os[i], ts[i], revocation) then Reply(r, Err(Contract))
      else if intentFails then Reply(r, Err(IntentFailure))
      else
        var next := RevokeAll(r, os, ts).(revocations := r.revocations[k := revocation]);
        Reply(next, Ok(Revoked(true, ts, v)))
  }
}
