/**
  The artifact catalog as atomic operations: each takes the catalog, returns the next one and
  the value or error its caller sees.  An error leaves the catalog as it was.
 */
module Catalog {
  import opened Prelude
  import J = Json
  import opened ArtifactContract
  import opened Envelope

  type Id = J.Text
  type ObjectKey = J.Text

  datatype Trigger = Manual | RetentionExpired | Abandoned | FixtureRevocation

  datatype Tombstone = Tombstone(
    actorPrincipalId: Id, artifactId: Id, occurredAt: Time, reason: J.Text, tombstoneId: Id, trigger: Trigger)

  datatype PurgeReceipt = PurgeReceipt(artifactId: Id, objectWasPresent: bool, occurredAt: Time, purgeId: Id)

  datatype Ownership = Ownership(
    artifactId: Id, boundAt: Time, boundByPrincipalId: Id, fixtureId: Id, fixtureVersionId: Id, scope: Scope)

  datatype CatalogEntry = CatalogEntry(
    createdByPrincipalId: Id, plan: Plan, metadata: Metadata, objectKey: ObjectKey,
    receipt: Option<Receipt>, ownership: Option<Ownership>)

  datatype Stored = Stored(entry: CatalogEntry, tombstone: Option<Tombstone>, purge: Option<PurgeReceipt>)

  /** Identifiers contain no colon, so the stored key `tenant:artifact` is a pair. */
  datatype Key = Key(tenantId: Id, artifactId: Id)

  type Entries = map<Key, Stored>

  datatype Error = NotFound | Conflict | StateTransition | OwnedDeletion | OwnershipConflict

  datatype Outcome<T> = Outcome(entries: Entries, result: Result<T, Error>)

  function KeyOf(e: CatalogEntry): Key { Key(e.metadata.scope.tenantId, e.metadata.contentReference.artifactId) }

  function StateRank(s: State): nat {
    match s case Reserved => 0 case Available => 1 case Tombstoned => 2 case Purged => 3
  }

  /** What a reservation may not change: the expiry counts by instant, not by spelling. */
  datatype Identity = Identity(
    reference: ContentReference, redaction: Redaction, expiresAt: Option<Time>, scope: Scope)

  function ReservationIdentity(m: Metadata): Identity {
    Identity(m.contentReference, m.redaction,
             if m.retention.Expire? then Some(m.retention.expiresAt.key) else None, m.scope)
  }

  function Find(entries: Entries, scope: Scope, artifactId: Id): (r: Option<CatalogEntry>)
    ensures r.Some? ==> Key(scope.tenantId, artifactId) in entries && r.value == entries[Key(scope.tenantId, artifactId)].entry
    ensures r.Some? ==> r.value.metadata.scope == scope
  {
    var k := Key(scope.tenantId, artifactId);
    if k in entries && entries[k].entry.metadata.scope == scope then Some(entries[k].entry) else None
  }

  function Reserve(entries: Entries, candidate: CatalogEntry): Outcome<(bool, CatalogEntry)> {
    var k := KeyOf(candidate);
    if candidate.metadata.state != Reserved || candidate.receipt.Some? || candidate.ownership.Some? then
      Outcome(entries, Err(StateTransition))
    else if k !in entries then Outcome(entries[k := Stored(candidate, None, None)], Ok((true, candidate)))
    else if ReservationIdentity(entries[k].entry.metadata) != ReservationIdentity(candidate.metadata) then
      Outcome(entries, Err(Conflict))
    else Outcome(entries, Ok((false, entries[k].entry)))
  }

  function Activate(entries: Entries, scope: Scope, artifactId: Id, receipt: Receipt, at: Time): Outcome<CatalogEntry> {
    var k := Key(scope.tenantId, artifactId);
    if Find(entries, scope, artifactId).None? then Outcome(entries, Err(NotFound)) else
    var e := entries[k].entry;
    match e.metadata.state
    case Available => Outcome(entries, if e.receipt == Some(receipt) then Ok(e) else Err(Conflict))
    case Reserved =>
      var next := e.(metadata := e.metadata.(availableAt := Some(at), state := Available), receipt := Some(receipt));
      Outcome(entries[k := entries[k].(entry := next)], Ok(next))
    case _ => Outcome(entries, Err(StateTransition))
  }

  predicate SameTombstone(a: Tombstone, b: Tombstone) {
    a.actorPrincipalId == b.actorPrincipalId && a.artifactId == b.artifactId && a.reason == b.reason && a.trigger == b.trigger
  }

  function Bury(stored: Stored, t: Tombstone): Stored {
    var m := stored.entry.metadata;
    stored.(entry := stored.entry.(metadata := m.(state := Tombstoned, tombstonedAt := Some(t.occurredAt))),
            tombstone := Some(t))
  }

  /** Refuses fixture-owned content: only a coordinated revocation may tombstone it. */
  function TombstoneEntry(entries: Entries, scope: Scope, t: Tombstone): Outcome<(bool, CatalogEntry)> {
    var k := Key(scope.tenantId, t.artifactId);
    if Find(entries, scope, t.artifactId).None? then Outcome(entries, Err(NotFound)) else
    var s := entries[k];
    if s.entry.ownership.Some? then Outcome(entries, Err(OwnedDeletion))
    else if s.tombstone.Some? then
      Outcome(entries, if SameTombstone(s.tombstone.value, t) then Ok((false, s.entry)) else Err(Conflict))
    else if (s.entry.metadata.state == Reserved && t.trigger == Abandoned)
         || (s.entry.metadata.state == Available && t.trigger != Abandoned) then
      Outcome(entries[k := Bury(s, t)], Ok((true, Bury(s, t).entry)))
    else Outcome(entries, Err(StateTransition))
  }

  function RecordPurge(entries: Entries, scope: Scope, r: PurgeReceipt): Outcome<CatalogEntry> {
    var k := Key(scope.tenantId, r.artifactId);
    if Find(entries, scope, r.artifactId).None? then Outcome(entries, Err(NotFound)) else
    var s := entries[k];
    match s.entry.metadata.state
    case Purged => Outcome(entries, Ok(s.entry))
    case Tombstoned =>
      var next := s.entry.(metadata := s.entry.metadata.(purgedAt := Some(r.occurredAt), state := Purged));
      Outcome(entries[k := s.(entry := next, purge := Some(r))], Ok(next))
    case _ => Outcome(entries, Err(StateTransition))
  }

  /** The ownership row of a coordinated fixture publication. */
  function Claim(entries: Entries, o: Ownership): Outcome<CatalogEntry> {
    var k := Key(o.scope.tenantId, o.artifactId);
    if Find(entries, o.scope, o.artifactId).None? then Outcome(entries, Err(NotFound)) else
    var e := entries[k].entry;
    if e.ownership.Some? then
      Outcome(entries, if e.ownership == Some(o) then Ok(e) else Err(OwnershipConflict))
    else if e.metadata.state != Available || !e.metadata.retention.Retain? then Outcome(entries, Err(StateTransition))
    else
      var next := e.(ownership := Some(o));
      Outcome(entries[k := entries[k].(entry := next)], Ok(next))
  }

  /** The tombstone row of a coordinated fixture revocation. */
  function TombstoneOwned(entries: Entries, scope: Scope, t: Tombstone): Outcome<(bool, CatalogEntry)> {
    var k := Key(scope.tenantId, t.artifactId);
    if Find(entries, scope, t.artifactId).None? then Outcome(entries, Err(NotFound)) else
    var s := entries[k];
    if s.entry.ownership.None? || t.trigger != FixtureRevocation then Outcome(entries, Err(StateTransition))
    else if s.tombstone.Some? then
      Outcome(entries, if SameTombstone(s.tombstone.value, t) then Ok((false, s.entry)) else Err(Conflict))
    else if s.entry.metadata.state != Available then Outcome(entries, Err(StateTransition))
    else Outcome(entries[k := Bury(s, t)], Ok((true, Bury(s, t).entry)))
  }
}
