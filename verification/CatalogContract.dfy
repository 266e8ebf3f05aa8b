/**
  What the catalog promises its callers, operation by operation: exactly when each answer is given,
  every field that changes, and that nothing else does.
 */
module CatalogContract {
  import opened Prelude
  import opened ArtifactContract
  import opened Envelope
  import opened Catalog

  /** The record of one artifact became `s`, and no other record changed. */
  ghost predicate Changed(before: Entries, after: Entries, k: Key, s: Stored) {
    after.Keys == before.Keys + {k} && after[k] == s && forall l | l in before && l != k :: after[l] == before[l]
  }

  /** The artifact has a record of exactly this scope. */
  predicate Known(entries: Entries, scope: Scope, artifactId: Id) {
    Key(scope.tenantId, artifactId) in entries && entries[Key(scope.tenantId, artifactId)].entry.metadata.scope == scope
  }

  lemma FindContract(entries: Entries, scope: Scope, artifactId: Id)
    ensures Find(entries, scope, artifactId) ==
            if Known(entries, scope, artifactId) then Some(entries[Key(scope.tenantId, artifactId)].entry) else None
  {
  }

  /** Two reservations ask for the same thing; of two expiries only the instants count. */
  predicate SameRequest(m: Metadata, n: Metadata) {
    && m.contentReference == n.contentReference && m.redaction == n.redaction && m.scope == n.scope
    && m.retention.Expire? == n.retention.Expire?
    && (m.retention.Expire? ==> m.retention.expiresAt.key == n.retention.expiresAt.key)
  }

  /** The first reservation is stored as it is; a later one gets the first's record or a conflict. */
  lemma ReserveContract(entries: Entries, candidate: CatalogEntry)
    ensures var o := Reserve(entries, candidate);
            var k := Key(candidate.metadata.scope.tenantId, candidate.metadata.contentReference.artifactId);
            var unused := candidate.metadata.state == Reserved && candidate.receipt.None? && candidate.ownership.None?;
            && (o.result == Err(StateTransition) <==> !unused)
            && (o.result == Err(Conflict) <==>
                  unused && k in entries && !SameRequest(entries[k].entry.metadata, candidate.metadata))
            && (o.result.Ok? ==> o.result.value.0 == (k !in entries))
            && (o.result.Ok? && k !in entries ==>
                  o.result.value.1 == candidate && Changed(entries, o.entries, k, Stored(candidate, None, None)))
            && (o.result.Ok? && k in entries ==> o.result.value.1 == entries[k].entry)
            && (o.result.Err? ==> o.result.error == StateTransition || o.result.error == Conflict)
            && (o.result.Err? || k in entries ==> o.entries == entries)
  {
  }

  /** A reserved artifact becomes available with the receipt and time it is given; again only with the same receipt. */
  lemma ActivateContract(entries: Entries, scope: Scope, artifactId: Id, receipt: Receipt, at: Time)
    ensures var o := Activate(entries, scope, artifactId, receipt, at);
            var k := Key(scope.tenantId, artifactId);
            if !Known(entries, scope, artifactId) then o == Outcome(entries, Err(NotFound))
            else
              var s := entries[k];
              var e := s.entry;
              match e.metadata.state
              case Reserved =>
                && o.result.Ok? && o.result.value.receipt == Some(receipt)
                && o.result.value.metadata.state == Available && o.result.value.metadata.availableAt == Some(at)
                && o.result.value.(metadata := e.metadata, receipt := e.receipt) == e
                && o.result.value.metadata.(state := Reserved, availableAt := e.metadata.availableAt) == e.metadata
                && Changed(entries, o.entries, k, Stored(o.result.value, s.tombstone, s.purge))
              case Available =>
                o.entries == entries && (if e.receipt == Some(receipt) then o.result == Ok(e) else o.result == Err(Conflict))
              case Tombstoned => o == Outcome(entries, Err(StateTransition))
              case Purged => o == Outcome(entries, Err(StateTransition))
  {
  }

  /** `s` buried under `t`: only the state, the time of the tombstone and the tombstone are new. */
  predicate BuriedUnder(s: Stored, b: Stored, t: Tombstone) {
    && b.tombstone == Some(t) && b.purge == s.purge
    && b.entry.metadata.state == Tombstoned && b.entry.metadata.tombstonedAt == Some(t.occurredAt)
    && b.entry.(metadata := s.entry.metadata) == s.entry
    && b.entry.metadata.(state := s.entry.metadata.state, tombstonedAt := s.entry.metadata.tombstonedAt) == s.entry.metadata
  }

  /** The same request again: who, what, why and on which occasion; not when, and not under which identifier. */
  predicate Repeats(t: Tombstone, u: Tombstone) {
    t.(occurredAt := u.occurredAt, tombstoneId := u.tombstoneId) == u
  }

  predicate MayBury(state: State, trigger: Trigger) {
    match state
    case Reserved => trigger == Abandoned
    case Available => trigger in {Manual, RetentionExpired, FixtureRevocation}
    case Tombstoned => false
    case Purged => false
  }

  /** What both kinds of tombstone answer once they apply to the artifact at all. */
  ghost predicate BuriesOnce(entries: Entries, k: Key, t: Tombstone, may: bool, o: Outcome<(bool, CatalogEntry)>)
    requires k in entries
  {
    var s := entries[k];
    if s.tombstone.Some? then
      && o.entries == entries
      && o.result == (if Repeats(s.tombstone.value, t) then Ok((false, s.entry)) else Err(Conflict))
    else if may then
      && o.result.Ok? && o.result.value.0
      && exists b :: BuriedUnder(s, b, t) && o.result.value.1 == b.entry && Changed(entries, o.entries, k, b)
    else o.entries == entries && o.result == Err(StateTransition)
  }

  /** Owned content is never tombstoned directly; otherwise once, from the state that the trigger is for. */
  lemma TombstoneContract(entries: Entries, scope: Scope, t: Tombstone)
    ensures var o := TombstoneEntry(entries, scope, t);
            var k := Key(scope.tenantId, t.artifactId);
            if !Known(entries, scope, t.artifactId) then o == Outcome(entries, Err(NotFound))
            else if entries[k].entry.ownership.Some? then o == Outcome(entries, Err(OwnedDeletion))
            else BuriesOnce(entries, k, t, MayBury(entries[k].entry.metadata.state, t.trigger), o)
  {
    var k := Key(scope.tenantId, t.artifactId);
    if k in entries { assert BuriedUnder(entries[k], Bury(entries[k], t), t); }
  }

  /** A coordinated revocation tombstones owned, available content, once. */
  lemma TombstoneOwnedContract(entries: Entries, scope: Scope, t: Tombstone)
    ensures var o := TombstoneOwned(entries, scope, t);
            var k := Key(scope.tenantId, t.artifactId);
            if !Known(entries, scope, t.artifactId) then o == Outcome(entries, Err(NotFound))
            else if entries[k].entry.ownership.None? || t.trigger != FixtureRevocation then o == Outcome(entries, Err(StateTransition))
            else BuriesOnce(entries, k, t, entries[k].entry.metadata.state == Available, o)
  {
    var k := Key(scope.tenantId, t.artifactId);
    if k in entries { assert BuriedUnder(entries[k], Bury(entries[k], t), t); }
  }

  /** The first purge record of a tombstoned artifact counts; a later one changes nothing. */
  lemma RecordPurgeContract(entries: Entries, scope: Scope, r: PurgeReceipt)
    ensures var o := RecordPurge(entries, scope, r);
            var k := Key(scope.tenantId, r.artifactId);
            if !Known(entries, scope, r.artifactId) then o == Outcome(entries, Err(NotFound))
            else
              var s := entries[k];
              var m := s.entry.metadata;
              match m.state
              case Tombstoned =>
                && o.result.Ok? && o.result.value.metadata == m.(state := Purged, purgedAt := Some(r.occurredAt))
                && o.result.value.(metadata := m) == s.entry
                && Changed(entries, o.entries, k, Stored(o.result.value, s.tombstone, Some(r)))
              case Purged => o == Outcome(entries, Ok(s.entry))
              case Reserved => o == Outcome(entries, Err(StateTransition))
              case Available => o == Outcome(entries, Err(StateTransition))
  {
  }

  /** A fixture may claim retained, available content that nobody owns, and only once. */
  lemma ClaimContract(entries: Entries, ow: Ownership)
    ensures var o := Claim(entries, ow);
            var k := Key(ow.scope.tenantId, ow.artifactId);
            if !Known(entries, ow.scope, ow.artifactId) then o == Outcome(entries, Err(NotFound))
            else
              var s := entries[k];
              var e := s.entry;
              if e.ownership.Some? then
                o == Outcome(entries, if e.ownership.value == ow then Ok(e) else Err(OwnershipConflict))
              else if e.metadata.state == Available && e.metadata.retention.Retain? then
                && o.result.Ok? && o.result.value.ownership == Some(ow) && o.result.value.(ownership := None) == e
                && Changed(entries, o.entries, k, Stored(o.result.value, s.tombstone, s.purge))
              else o == Outcome(entries, Err(StateTransition))
  {
  }
}
