/**
  What publication and revocation promise their callers: exactly when each answer is given, and
  everything that changes in both stores.
 */
module AdapterContract {
  import opened Prelude
  import J = Json
  import opened ArtifactContract
  import opened Envelope
  import opened Catalog
  import opened CatalogContract
  import opened RegressionStore
  import opened Coordination

  /** The key of the artifact that a version binds at position `i`. */
  function BoundKey(v: Version, i: nat): Key
    requires i < |v.artifacts|
  {
    Key(v.scope.tenantId, v.artifacts[i].reference.artifactId)
  }

  // ---------------------------------------------------------------- revocation

  /** The version is stored in this scope and under this fixture. */
  predicate KnownVersion(s: Stores, r: Revocation) {
    var k := Key(r.scope.tenantId, r.fixtureVersionId);
    k in s.regression.versions && s.regression.versions[k].scope == r.scope && s.regression.versions[k].fixtureId == r.fixtureId
  }

  /** One tombstone per bound artifact, in order, and each says what the revocation says. */
  predicate StonesFit(v: Version, r: Revocation, ts: seq<Tombstone>) {
    && |ts| == |v.artifacts|
    && forall i | 0 <= i < |ts| ::
         ts[i] == Tombstone(r.revokedByPrincipalId, v.artifacts[i].reference.artifactId, r.revokedAt, r.reason,
                            ts[i].tombstoneId, FixtureRevocation)
  }

  /** Everything a first revocation changes: the artifacts of the version, in both stores, and nothing else. */
  ghost predicate RevokedThroughout(s: Stores, n: Stores, v: Version, r: Revocation, ts: seq<Tombstone>)
    requires |ts| == |v.artifacts|
  {
    && n.regression.revocations == s.regression.revocations[Key(r.scope.tenantId, r.fixtureVersionId) := r]
    && n.regression.versions == s.regression.versions && n.regression.ownerships == s.regression.ownerships
    && (forall i | 0 <= i < |ts| ::
          var k := BoundKey(v, i);
          && k in s.entries && k in n.entries && BuriedUnder(s.entries[k], n.entries[k], ts[i])
          && Lookup(n.regression.tombstones, k) == Some(ts[i])
          && Lookup(n.regression.metadata, k) == Some(n.entries[k].entry.metadata))
    && (forall k | forall i | 0 <= i < |v.artifacts| :: BoundKey(v, i) != k ::
          && Lookup(n.entries, k) == Lookup(s.entries, k)
          && Lookup(n.regression.tombstones, k) == Lookup(s.regression.tombstones, k)
          && Lookup(n.regression.metadata, k) == Lookup(s.regression.metadata, k))
  }

  /** An artifact of a version that is not revoked is available, in both stores, with the version as its owner. */
  lemma StoredIsRevocable(s: Stores, r: Revocation, i: nat)
    requires Coupled(s) && KnownVersion(s, r) && Key(r.scope.tenantId, r.fixtureVersionId) !in s.regression.revocations
    requires i < |RevokedVersion(s, r).artifacts|
    ensures var k := BoundKey(RevokedVersion(s, r), i);
            && k == OwnerKey(Expected(RevokedVersion(s, r))[i])
            && k in s.entries && k in s.regression.metadata && s.entries[k].entry.metadata.state == Available
            && s.regression.metadata[k] == s.entries[k].entry.metadata
  {
    var k := Key(r.scope.tenantId, r.fixtureVersionId);
    assert VersionAgrees(s.regression, k);
    var l := OwnerKey(Expected(RevokedVersion(s, r))[i]);
    assert RowAgrees(l, RowOf(s, l));
  }

  lemma FittingStonesRevoke(s: Stores, r: Revocation, ts: seq<Tombstone>)
    requires Coupled(s) && KnownVersion(s, r) && Key(r.scope.tenantId, r.fixtureVersionId) !in s.regression.revocations
    ensures var os := Expected(RevokedVersion(s, r));
            StonesFit(RevokedVersion(s, r), r, ts) <==>
              |ts| == |os| && forall i | 0 <= i < |os| :: Revocable(s.regression, os[i], ts[i], r)
  {
    var v := RevokedVersion(s, r);
    if |ts| == |v.artifacts| {
      forall i | 0 <= i < |ts|
        ensures Revocable(s.regression, Expected(v)[i], ts[i], r) <==>
                ts[i] == Tombstone(r.revokedByPrincipalId, v.artifacts[i].reference.artifactId, r.revokedAt, r.reason,
                                   ts[i].tombstoneId, FixtureRevocation) {
        StoredIsRevocable(s, r, i);
      }
    }
  }

  /** The answer of a first revocation, and the stores after it, before they are looked at row by row. */
  lemma FirstRevocation(s: Stores, r: Revocation, ts: seq<Tombstone>, intentFails: bool)
    requires Coupled(s) && KnownVersion(s, r) && Key(r.scope.tenantId, r.fixtureVersionId) !in s.regression.revocations
    ensures var o := RevokeNext(s, r, ts, intentFails);
            var v := RevokedVersion(s, r);
            if !StonesFit(v, r, ts) then o == After(s, Err(Contract))
            else if intentFails then o == After(s, Err(IntentFailure))
            else
              && Revoking(s, r, ts)
              && (forall i | 0 <= i < |Expected(v)| :: OwnerKey(Expected(v)[i]) in s.regression.metadata)
              && o.result == Ok(Revoked(true, ts, v))
              && o.stores == Stores(BuryAll(s.entries, r.scope, ts).0, WithRevocation(s, r, ts))
  {
    var k := Key(r.scope.tenantId, r.fixtureVersionId);
    assert VersionAgrees(s.regression, k);
    AllExact(s, k);
    FittingStonesRevoke(s, r, ts);
    if StonesFit(RevokedVersion(s, r), r, ts) {
      AllRevoked(s, r, ts);
      RevokedCoupled(s, r, ts);
    }
  }

  lemma {:induction false} StoneOfArtifact(ts: seq<Tombstone>, tenantId: Id, i: nat)
    requires i < |ts| && DistinctStones(ts)
    ensures StoneIn(ts, tenantId, Key(tenantId, ts[i].artifactId)) == Some(ts[i])
  {
    if i > 0 { StoneOfArtifact(ts[1..], tenantId, i - 1); }
  }

  lemma RevokedRows(s: Stores, r: Revocation, ts: seq<Tombstone>)
    requires Revoking(s, r, ts) && KnownVersion(s, r) && StonesFit(RevokedVersion(s, r), r, ts)
    requires var os := Expected(RevokedVersion(s, r)); forall i | 0 <= i < |os| :: OwnerKey(os[i]) in s.regression.metadata
    ensures RevokedThroughout(s, Stores(BuryAll(s.entries, r.scope, ts).0, WithRevocation(s, r, ts)), RevokedVersion(s, r), r, ts)
  {
    var v := RevokedVersion(s, r);
    var n := Stores(BuryAll(s.entries, r.scope, ts).0, WithRevocation(s, r, ts));
    AllRevoked(s, r, ts);
    RevokeAllAt(s.regression, Expected(v), ts, r.scope.tenantId, Key([], []));
    forall i | 0 <= i < |ts|
      ensures var k := BoundKey(v, i);
              && k in s.entries && k in n.entries && BuriedUnder(s.entries[k], n.entries[k], ts[i])
              && Lookup(n.regression.tombstones, k) == Some(ts[i])
              && Lookup(n.regression.metadata, k) == Some(n.entries[k].entry.metadata) {
      RevokedAt(s, r, ts, i);
    }
    forall k | forall i | 0 <= i < |v.artifacts| :: BoundKey(v, i) != k
      ensures Lookup(n.entries, k) == Lookup(s.entries, k)
      ensures Lookup(n.regression.tombstones, k) == Lookup(s.regression.tombstones, k)
      ensures Lookup(n.regression.metadata, k) == Lookup(s.regression.metadata, k) {
      UntouchedAt(s, r, ts, k);
    }
  }

  lemma RevokedAt(s: Stores, r: Revocation, ts: seq<Tombstone>, i: nat)
    requires Revoking(s, r, ts) && KnownVersion(s, r) && StonesFit(RevokedVersion(s, r), r, ts) && i < |ts|
    requires var os := Expected(RevokedVersion(s, r)); forall i | 0 <= i < |os| :: OwnerKey(os[i]) in s.regression.metadata
    ensures var k := BoundKey(RevokedVersion(s, r), i);
            var n := Stores(BuryAll(s.entries, r.scope, ts).0, WithRevocation(s, r, ts));
            && k in s.entries && k in n.entries && BuriedUnder(s.entries[k], n.entries[k], ts[i])
            && Lookup(n.regression.tombstones, k) == Some(ts[i])
            && Lookup(n.regression.metadata, k) == Some(n.entries[k].entry.metadata)
  {
    var k := BoundKey(RevokedVersion(s, r), i);
    AllRevoked(s, r, ts);
    StoredIsRevocable(s, r, i);
    StoneOfArtifact(ts, r.scope.tenantId, i);
    BuryAllAt(s.entries, r.scope, ts, k);
    RevokeAllAt(s.regression, Expected(RevokedVersion(s, r)), ts, r.scope.tenantId, k);
  }

  lemma UntouchedAt(s: Stores, r: Revocation, ts: seq<Tombstone>, k: Key)
    requires Revoking(s, r, ts) && KnownVersion(s, r) && StonesFit(RevokedVersion(s, r), r, ts)
    requires var os := Expected(RevokedVersion(s, r)); forall i | 0 <= i < |os| :: OwnerKey(os[i]) in s.regression.metadata
    requires forall i | 0 <= i < |RevokedVersion(s, r).artifacts| :: BoundKey(RevokedVersion(s, r), i) != k
    ensures var n := Stores(BuryAll(s.entries, r.scope, ts).0, WithRevocation(s, r, ts));
            && Lookup(n.entries, k) == Lookup(s.entries, k)
            && Lookup(n.regression.tombstones, k) == Lookup(s.regression.tombstones, k)
            && Lookup(n.regression.metadata, k) == Lookup(s.regression.metadata, k)
  {
    AllRevoked(s, r, ts);
    assert StoneIn(ts, r.scope.tenantId, k).None? by {
      forall i | 0 <= i < |ts| ensures Key(r.scope.tenantId, ts[i].artifactId) != k {
        assert BoundKey(RevokedVersion(s, r), i) != k;
      }
    }
    BuryAllAt(s.entries, r.scope, ts, k);
    RevokeAllAt(s.regression, Expected(RevokedVersion(s, r)), ts, r.scope.tenantId, k);
  }

  /**
    Exactly when a revocation answers what.  A first one succeeds if and only if the version is known
    in its scope and under its fixture, there is one fitting tombstone per bound artifact, and the
    outbox takes the intent; that the artifacts are available needs no condition, because the stores
    agree.  It then buries exactly these artifacts in both stores.
   */
  lemma RevokeExactly(s: Stores, r: Revocation, ts: seq<Tombstone>, intentFails: bool)
    requires Coupled(s) && Key(r.scope.tenantId, r.fixtureVersionId) !in s.regression.revocations
    ensures var o := RevokeNext(s, r, ts, intentFails);
            if !KnownVersion(s, r) then o == After(s, Err(VersionNotFound))
            else
              var v := s.regression.versions[Key(r.scope.tenantId, r.fixtureVersionId)];
              if !StonesFit(v, r, ts) then o == After(s, Err(Contract))
              else if intentFails then o == After(s, Err(IntentFailure))
              else o.result == Ok(Revoked(true, ts, v)) && RevokedThroughout(s, o.stores, v, r, ts)
  {
    if KnownVersion(s, r) {
      FirstRevocation(s, r, ts, intentFails);
      if StonesFit(RevokedVersion(s, r), r, ts) && !intentFails { RevokedRows(s, r, ts); }
    } else {
      UnknownVersion(s, r, ts, intentFails);
    }
  }

  lemma UnknownVersion(s: Stores, r: Revocation, ts: seq<Tombstone>, intentFails: bool)
    requires Coupled(s) && !KnownVersion(s, r)
    ensures RevokeNext(s, r, ts, intentFails) == After(s, Err(VersionNotFound))
  {
    var k := Key(r.scope.tenantId, r.fixtureVersionId);
    if k in s.regression.versions {
      assert VersionAgrees(s.regression, k);
      AllExact(s, k);
      if k in s.regression.revocations { StoredRevocation(s, k); }
    }
  }

  /** Revoking again changes nothing, and succeeds with the stored tombstones exactly when the reason is the same. */
  lemma RevokeAgainExactly(s: Stores, r: Revocation, ts: seq<Tombstone>, intentFails: bool)
    requires Coupled(s) && Key(r.scope.tenantId, r.fixtureVersionId) in s.regression.revocations
    ensures var o := RevokeNext(s, r, ts, intentFails);
            var k := Key(r.scope.tenantId, r.fixtureVersionId);
            && o.stores == s
            && (if !KnownVersion(s, r) then o.result == Err(VersionNotFound)
                else if s.regression.revocations[k].reason != r.reason then o.result == Err(RevocationConflict)
                else
                  var v := s.regression.versions[k];
                  && o.result.Ok? && !o.result.value.created && o.result.value.version == v
                  && |o.result.value.tombstones| == |v.artifacts|
                  && forall i | 0 <= i < |v.artifacts| ::
                       Lookup(s.regression.tombstones, BoundKey(v, i)) == Some(o.result.value.tombstones[i]))
  {
    var k := Key(r.scope.tenantId, r.fixtureVersionId);
    if KnownVersion(s, r) {
      assert VersionAgrees(s.regression, k);
      AllExact(s, k);
      StoredRevocation(s, k);
      RevokedAgain(s, r, ts, intentFails);
      StoredStones(s, r, ts, intentFails);
    } else {
      UnknownVersion(s, r, ts, intentFails);
    }
  }

  lemma StoredStones(s: Stores, r: Revocation, ts: seq<Tombstone>, intentFails: bool)
    requires Coupled(s) && KnownVersion(s, r) && Key(r.scope.tenantId, r.fixtureVersionId) in s.regression.revocations
    ensures var o := RevokeFound(s, r, ts, intentFails).result;
            var k := Key(r.scope.tenantId, r.fixtureVersionId);
            var v := s.regression.versions[k];
            if s.regression.revocations[k].reason != r.reason then o == Err(RevocationConflict)
            else
              && o.Ok? && !o.value.created && o.value.version == v && |o.value.tombstones| == |v.artifacts|
              && forall i | 0 <= i < |v.artifacts| :: Lookup(s.regression.tombstones, BoundKey(v, i)) == Some(o.value.tombstones[i])
  {
    var k := Key(r.scope.tenantId, r.fixtureVersionId);
    var v := s.regression.versions[k];
    assert VersionAgrees(s.regression, k);
    StoredRevocation(s, k);
    BuryAllAgain(s.entries, v.scope, Stones(s.regression, Expected(v)));
    assert forall i | 0 <= i < |v.artifacts| :: OwnerKey(Expected(v)[i]) == BoundKey(v, i);
  }

  // ---------------------------------------------------------------- publication

  /** The ownership that publishing `v` gives it of its artifact at position `i`. */
  function OwnershipAt(v: Version, i: nat): Ownership
    requires i < |v.artifacts|
  {
    Ownership(v.artifacts[i].reference.artifactId, v.createdAt, v.createdByPrincipalId, v.fixtureId, v.fixtureVersionId, v.scope)
  }

  /** Seeding stopped after `n` artifacts, at the first one that is unknown or was seeded otherwise, if there is one. */
  predicate SeedsUpTo(s: Stores, v: Version, n: nat) {
    && n <= |v.artifacts|
    && (forall i | 0 <= i < n :: Seedable(s.entries, s.regression, v.scope, v.artifacts[i]))
    && (n < |v.artifacts| ==> !Seedable(s.entries, s.regression, v.scope, v.artifacts[n]))
  }

  /** The catalog's records of the first `n` artifacts, and nothing else, are new in the regression store. */
  ghost predicate SeededOnly(s: Stores, metadata: map<Key, Metadata>, v: Version, n: nat)
    requires n <= |v.artifacts|
  {
    && (forall i | 0 <= i < n :: BoundKey(v, i) in s.entries
                                 && Lookup(metadata, BoundKey(v, i)) == Some(s.entries[BoundKey(v, i)].entry.metadata))
    && (forall k | forall i | 0 <= i < n :: BoundKey(v, i) != k :: Lookup(metadata, k) == Lookup(s.regression.metadata, k))
  }

  /** Everything a first publication changes besides the seeded records. */
  ghost predicate PublishedThroughout(s: Stores, n: Stores, v: Version) {
    && n.regression.versions == s.regression.versions[Key(v.scope.tenantId, v.fixtureVersionId) := v]
    && n.regression.revocations == s.regression.revocations && n.regression.tombstones == s.regression.tombstones
    && (forall i | 0 <= i < |v.artifacts| ::
          var k := BoundKey(v, i);
          && k in s.entries && k in n.entries
          && n.entries[k] == s.entries[k].(entry := s.entries[k].entry.(ownership := Some(OwnershipAt(v, i))))
          && Lookup(n.regression.ownerships, k) == Some(OwnershipAt(v, i)))
    && (forall k | forall i | 0 <= i < |v.artifacts| :: BoundKey(v, i) != k ::
          && Lookup(n.entries, k) == Lookup(s.entries, k)
          && Lookup(n.regression.ownerships, k) == Lookup(s.regression.ownerships, k))
  }

  lemma {:induction false} SeedingStops(s: Stores, scope: Scope, bs: seq<Binding>) returns (n: nat)
    requires Coupled(s)
    ensures n <= |bs| && (forall i | 0 <= i < n :: Seedable(s.entries, s.regression, scope, bs[i]))
    ensures n < |bs| ==> !Seedable(s.entries, s.regression, scope, bs[n])
    ensures var o := SeedAll(s.entries, s.regression, scope, bs);
            && (forall i | 0 <= i < n :: ArtifactKey(scope, bs[i]) in s.entries
                  && Lookup(o.store.metadata, ArtifactKey(scope, bs[i])) == Some(s.entries[ArtifactKey(scope, bs[i])].entry.metadata))
            && (forall k | forall i | 0 <= i < n :: ArtifactKey(scope, bs[i]) != k ::
                  Lookup(o.store.metadata, k) == Lookup(s.regression.metadata, k))
            && (n == |bs| ==> o.result.Ok?)
            && (n < |bs| ==>
                  o.result == Err(if Find(s.entries, scope, bs[n].reference.artifactId).None? then ArtifactNotCoordinated
                                  else BindingRefused))
    decreases |bs|
  {
    n := 0;
    if bs != [] { assert RowAgrees(ArtifactKey(scope, bs[0]), RowOf(s, ArtifactKey(scope, bs[0]))); }
    if bs != [] && Seedable(s.entries, s.regression, scope, bs[0]) {
      var e := Find(s.entries, scope, bs[0].reference.artifactId).value;
      var v := s.(regression := Seed(s.regression, e.metadata).value);
      SeedOneKeeps(s, e);
      var m := SeedingStops(v, scope, bs[1..]);
      SeedableOthers(s, e, scope, bs[1..]);
      n := m + 1;
      SeedingStep(s, v, scope, bs, m);
    }
  }

  lemma SeedOneKeeps(s: Stores, e: CatalogEntry)
    requires Coupled(s) && KeyOf(e) in s.entries && s.entries[KeyOf(e)].entry == e && Seed(s.regression, e.metadata).Ok?
    ensures Coupled(s.(regression := Seed(s.regression, e.metadata).value))
  {
    var v := s.(regression := Seed(s.regression, e.metadata).value);
    forall l ensures RowAgrees(l, RowOf(v, l)) { assert RowAgrees(KeyOf(e), RowOf(s, KeyOf(e))); SeedRow(s, e, l); }
    forall l | l in v.regression.versions ensures VersionAgrees(v.regression, l) { assert VersionAgrees(s.regression, l); }
  }

  lemma SeedingStep(s: Stores, v: Stores, scope: Scope, bs: seq<Binding>, m: nat)
    requires Coupled(s) && bs != [] && m < |bs|
    requires Seedable(s.entries, s.regression, scope, bs[0])
    requires Seed(s.regression, Find(s.entries, scope, bs[0].reference.artifactId).value.metadata).Ok?
    requires v == s.(regression := Seed(s.regression, Find(s.entries, scope, bs[0].reference.artifactId).value.metadata).value)
    requires var o := SeedAll(s.entries, v.regression, scope, bs[1..]);
             && (forall i | 0 <= i < m :: ArtifactKey(scope, bs[1..][i]) in s.entries
                   && Lookup(o.store.metadata, ArtifactKey(scope, bs[1..][i])) == Some(s.entries[ArtifactKey(scope, bs[1..][i])].entry.metadata))
             && (forall k | forall i | 0 <= i < m :: ArtifactKey(scope, bs[1..][i]) != k ::
                   Lookup(o.store.metadata, k) == Lookup(v.regression.metadata, k))
    ensures var o := SeedAll(s.entries, s.regression, scope, bs);
            && (forall i | 0 <= i < m + 1 :: ArtifactKey(scope, bs[i]) in s.entries
                  && Lookup(o.store.metadata, ArtifactKey(scope, bs[i])) == Some(s.entries[ArtifactKey(scope, bs[i])].entry.metadata))
            && (forall k | forall i | 0 <= i < m + 1 :: ArtifactKey(scope, bs[i]) != k ::
                  Lookup(o.store.metadata, k) == Lookup(s.regression.metadata, k))
  {
    var k0 := ArtifactKey(scope, bs[0]);
    assert RowAgrees(k0, RowOf(s, k0));
    var o := SeedAll(s.entries, s.regression, scope, bs);
    assert o == SeedAll(s.entries, v.regression, scope, bs[1..]);
    forall i | 0 <= i < m + 1 ensures ArtifactKey(scope, bs[i]) in s.entries
        && Lookup(o.store.metadata, ArtifactKey(scope, bs[i])) == Some(s.entries[ArtifactKey(scope, bs[i])].entry.metadata) {
      if i > 0 {
        assert bs[1..][i - 1] == bs[i];
      } else if !(forall j | 0 <= j < m :: ArtifactKey(scope, bs[1..][j]) != k0) {
        var j :| 0 <= j < m && ArtifactKey(scope, bs[1..][j]) == k0;
      }
    }
    forall k | forall i | 0 <= i < m + 1 :: ArtifactKey(scope, bs[i]) != k
      ensures Lookup(o.store.metadata, k) == Lookup(s.regression.metadata, k) {
      assert ArtifactKey(scope, bs[0]) != k;
      forall j | 0 <= j < m ensures ArtifactKey(scope, bs[1..][j]) != k { assert bs[1..][j] == bs[j + 1]; }
    }
  }

  /** Nothing but records in the regression store has changed. */
  predicate OnlySeeded(s: Stores, n: Stores) { n == s.(regression := s.regression.(metadata := n.regression.metadata)) }

  /** What publication answers once all artifacts are seeded, and what it then changes. */
  ghost predicate AnswersSeeded(s: Stores, v: Version, lineage: Option<StoreError>, intentFails: bool, o: After<Published>) {
    if !DistinctArtifacts(v) then o.result == Err(InvalidVersion) && OnlySeeded(s, o.stores)
    else if lineage.Some? then o.result == Err(lineage.value) && OnlySeeded(s, o.stores)
    else if exists i :: 0 <= i < |v.artifacts| && !Publishable(s, v, v.artifacts[i]) then
      o.result == Err(BindingRefused) && OnlySeeded(s, o.stores)
    else if intentFails then o.result == Err(IntentFailure) && OnlySeeded(s, o.stores)
    else
      && o.result.Ok? && o.result.value.created && o.result.value.version == v
      && |o.result.value.ownerships| == |v.artifacts|
      && (forall i | 0 <= i < |v.artifacts| :: o.result.value.ownerships[i] == OwnershipAt(v, i))
      && PublishedThroughout(s, o.stores, v)
  }

  lemma ClaimedRows(s: Stores, v: Version)
    requires Publishing(s, v)
    ensures PublishedThroughout(s, Stores(ClaimAll(s.entries, Expected(v)).0, WithVersion(s.regression, v)), v)
  {
    var n := Stores(ClaimAll(s.entries, Expected(v)).0, WithVersion(s.regression, v));
    AllClaimable(s, v);
    forall i | 0 <= i < |v.artifacts|
      ensures var k := BoundKey(v, i);
              && k in s.entries && k in n.entries
              && n.entries[k] == s.entries[k].(entry := s.entries[k].entry.(ownership := Some(OwnershipAt(v, i))))
              && Lookup(n.regression.ownerships, k) == Some(OwnershipAt(v, i)) {
      ClaimedAt(s, v, i);
    }
    forall k | forall i | 0 <= i < |v.artifacts| :: BoundKey(v, i) != k
      ensures Lookup(n.entries, k) == Lookup(s.entries, k)
      ensures Lookup(n.regression.ownerships, k) == Lookup(s.regression.ownerships, k) {
      assert OwnerIn(Expected(v), k).None? by {
        forall i | 0 <= i < |Expected(v)| ensures OwnerKey(Expected(v)[i]) != k { assert BoundKey(v, i) != k; }
      }
      ClaimAllAt(s.entries, Expected(v), k);
      OwnAllAt(s.regression.ownerships, Expected(v), k);
    }
  }

  lemma {:induction false} OwnerOfArtifact(os: seq<Ownership>, i: nat)
    requires i < |os| && DistinctOwners(os)
    ensures OwnerIn(os, OwnerKey(os[i])) == Some(os[i])
  {
    if i > 0 { OwnerOfArtifact(os[1..], i - 1); }
  }

  lemma ClaimedAt(s: Stores, v: Version, i: nat)
    requires Publishing(s, v) && i < |v.artifacts|
    ensures var k := BoundKey(v, i);
            var n := Stores(ClaimAll(s.entries, Expected(v)).0, WithVersion(s.regression, v));
            && k in s.entries && k in n.entries
            && n.entries[k] == s.entries[k].(entry := s.entries[k].entry.(ownership := Some(OwnershipAt(v, i))))
            && Lookup(n.regression.ownerships, k) == Some(OwnershipAt(v, i))
  {
    AllClaimable(s, v);
    ExpectedClaimable(s, v, i);
    OwnerOfArtifact(Expected(v), i);
    ClaimAllAt(s.entries, Expected(v), BoundKey(v, i));
    OwnAllAt(s.regression.ownerships, Expected(v), BoundKey(v, i));
  }

  lemma SeededAnswers(s: Stores, n: Stores, v: Version, lineage: Option<StoreError>, intentFails: bool)
    requires Coupled(s) && Coupled(n) && OnlySeeded(s, n) && VersionKey(v) !in s.regression.versions
    requires AllSeeded(s.entries, n.regression, v)
    requires forall i | 0 <= i < |v.artifacts| :: Seedable(s.entries, s.regression, v.scope, v.artifacts[i])
    ensures AnswersSeeded(s, v, lineage, intentFails, PublishSeeded(n, v, lineage, intentFails))
    ensures PublishSeeded(n, v, lineage, intentFails).stores.regression.metadata == n.regression.metadata
  {
    NewPublishes(n, v, lineage, intentFails);
    forall i | 0 <= i < |v.artifacts| ensures Bindable(n.regression, v, v.artifacts[i]) <==> Publishable(s, v, v.artifacts[i]) {
      assert Seeded(s.entries, n.regression, v.scope, v.artifacts[i]);
      BindableExactly(s, n.regression, v, v.artifacts[i]);
    }
    if PublishSeeded(n, v, lineage, intentFails).result.Ok? {
      PublishedClaims(n, v);
      ClaimedRows(n, v);
    }
  }

  /** Seeding alone: how far it gets, what it stores and why it stops. */
  lemma SeedingContract(s: Stores, v: Version) returns (n: nat)
    requires Coupled(s)
    ensures var seeded := SeedAll(s.entries, s.regression, v.scope, v.artifacts);
            && SeedsUpTo(s, v, n) && SeededOnly(s, seeded.store.metadata, v, n)
            && seeded.store == s.regression.(metadata := seeded.store.metadata)
            && (n < |v.artifacts| <==> seeded.result.Err?)
            && (n < |v.artifacts| ==> seeded.result.error == StopsWith(s, v, n))
            && (n == |v.artifacts| ==>
                  && Coupled(s.(regression := seeded.store)) && AllSeeded(s.entries, seeded.store, v)
                  && forall i | 0 <= i < |v.artifacts| :: Seedable(s.entries, s.regression, v.scope, v.artifacts[i]))
  {
    n := SeedingStops(s, v.scope, v.artifacts);
    SeedAllKeeps(s, v.scope, v.artifacts);
    SeedAllExactly(s, v.scope, v.artifacts);
    assert forall i | 0 <= i < |v.artifacts| :: BoundKey(v, i) == ArtifactKey(v.scope, v.artifacts[i]);
  }

  function StopsWith(s: Stores, v: Version, n: nat): StoreError
    requires n < |v.artifacts|
  {
    if Find(s.entries, v.scope, v.artifacts[n].reference.artifactId).None? then ArtifactNotCoordinated else BindingRefused
  }

  /**
    Exactly what the publication of a new version answers and changes.  Seeding runs up to the first
    artifact that is unknown or was seeded otherwise; if there is none the version is published if
    and only if its artifacts are distinct, its lineage is accepted, every artifact is as the catalog
    requires and the outbox takes the intent.
   */
  lemma PublishContract(s: Stores, v: Version, lineage: Option<StoreError>, intentFails: bool) returns (n: nat)
    requires Coupled(s) && VersionKey(v) !in s.regression.versions
    ensures var o := PublishNext(s, v, lineage, intentFails);
            && SeedsUpTo(s, v, n) && SeededOnly(s, o.stores.regression.metadata, v, n)
            && (if n < |v.artifacts| then
                  && OnlySeeded(s, o.stores)
                  && o.result == Err(StopsWith(s, v, n))
                else AnswersSeeded(s, v, lineage, intentFails, o))
  {
    n := SeedingContract(s, v);
    var seeded := SeedAll(s.entries, s.regression, v.scope, v.artifacts);
    if n == |v.artifacts| { SeededAnswers(s, s.(regression := seeded.store), v, lineage, intentFails); }
  }

  /** What is answered about a version that is stored already: it is as it was, or it conflicts. */
  predicate AnswersStored(stored: Version, v: Version, result: Result<Published, StoreError>) {
    if !DistinctArtifacts(v) then result == Err(InvalidVersion)
    else if stored.definition != v.definition then result == Err(VersionConflict)
    else
      && result.Ok? && !result.value.created && result.value.version == stored
      && |result.value.ownerships| == |stored.artifacts|
      && forall i | 0 <= i < |stored.artifacts| :: result.value.ownerships[i] == OwnershipAt(stored, i)
  }

  lemma StoredAnswers(s: Stores, v: Version, lineage: Option<StoreError>, intentFails: bool)
    requires Coupled(s) && VersionKey(v) in s.regression.versions
    ensures var o := PublishSeeded(s, v, lineage, intentFails);
            o.stores == s && AnswersStored(s.regression.versions[VersionKey(v)], v, o.result)
  {
    if DistinctArtifacts(v) { StoredPublishes(s, v, lineage, intentFails); }
  }

  /**
    Publishing a stored version again changes nothing.  Only if it is stored in another scope of the
    tenant does it seed first, and then nothing but seeded records is new.
   */
  lemma RepublishContract(s: Stores, v: Version, lineage: Option<StoreError>, intentFails: bool) returns (n: nat)
    requires Coupled(s) && VersionKey(v) in s.regression.versions
    ensures var o := PublishNext(s, v, lineage, intentFails);
            var stored := s.regression.versions[VersionKey(v)];
            if stored.scope == v.scope then o.stores == s && AnswersStored(stored, v, o.result)
            else
              && SeedsUpTo(s, v, n) && SeededOnly(s, o.stores.regression.metadata, v, n) && OnlySeeded(s, o.stores)
              && if n < |v.artifacts| then o.result == Err(StopsWith(s, v, n)) else AnswersStored(stored, v, o.result)
  {
    n := 0;
    assert VersionAgrees(s.regression, VersionKey(v));
    if s.regression.versions[VersionKey(v)].scope == v.scope {
      StoredAnswers(s, v, lineage, intentFails);
    } else {
      n := SeedingContract(s, v);
      var seeded := SeedAll(s.entries, s.regression, v.scope, v.artifacts);
      if n == |v.artifacts| { StoredAnswers(s.(regression := seeded.store), v, lineage, intentFails); }
    }
  }

  // ---------------------------------------------------------------- the first look of both calls

  /** What the finds before a publication and a revocation answer while the stores agree. */
  lemma FindsExactly(s: Stores, v: Version)
    requires Coupled(s)
    ensures var k := VersionKey(v);
            var here := k in s.regression.versions && s.regression.versions[k].scope == v.scope;
            && FindVersion(s.regression, v) == Ok(here)
            && FindContent(s.regression, v.scope, v.fixtureVersionId) == Ok(if here then Some(s.regression.versions[k]) else None)
  {
    var k := VersionKey(v);
    if k in s.regression.versions {
      assert VersionAgrees(s.regression, k);
      AllExact(s, k);
      if k in s.regression.revocations { StoredRevocation(s, k); }
    }
  }

  // ---------------------------------------------------------------- stores that disagree

  /** The catalog shows this owner; the scope is not compared. */
  ghost predicate ShowsOwner(entries: Entries, o: Ownership) {
    var e := Find(entries, o.scope, o.artifactId);
    e.Some? && exists scope :: e.value.ownership == Some(o.(scope := scope))
  }

  lemma ShowsOwnerExactly(entries: Entries, o: Ownership)
    ensures ShowsOwner(entries, o) <==> Exact(Find(entries, o.scope, o.artifactId), o)
  {
    var e := Find(entries, o.scope, o.artifactId);
    if Exact(e, o) { assert e.value.ownership == Some(o.(scope := e.value.ownership.value.scope)); }
  }

  /** In stores that do not agree a publication is refused as soon as one artifact has another owner, before any claim. */
  lemma OtherOwnerRefused(s: Stores, published: Published, i: nat)
    requires i < |published.ownerships|
    requires var o := published.ownerships[i];
             var e := Find(s.entries, o.scope, o.artifactId);
             e.Some? && e.value.ownership.Some? && !ShowsOwner(s.entries, o)
    ensures ClaimPublished(s, published) == After(s, Err(OwnershipNotCoordinated))
  {
    ShowsOwnerExactly(s.entries, published.ownerships[i]);
    assert Disowned(s.entries, published.ownerships[i]);
  }

  /** And a revocation, before it changes either store, as soon as one artifact is not shown with its owner. */
  lemma MissingOwnerRefused(s: Stores, r: Revocation, ts: seq<Tombstone>, intentFails: bool, i: nat)
    requires FindContent(s.regression, r.scope, r.fixtureVersionId).Ok?
    requires FindContent(s.regression, r.scope, r.fixtureVersionId).value.Some?
    requires var os := Expected(FindContent(s.regression, r.scope, r.fixtureVersionId).value.value);
             i < |os| && !ShowsOwner(s.entries, os[i])
    ensures RevokeNext(s, r, ts, intentFails) == After(s, Err(OwnershipNotCoordinated))
  {
    ShowsOwnerExactly(s.entries, Expected(FindContent(s.regression, r.scope, r.fixtureVersionId).value.value)[i]);
  }
}
