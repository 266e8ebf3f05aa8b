/**
  The coordinated memory adapters: a catalog and a regression store, changed only inside one mutex,
  that must never disagree about which fixture owns an artifact or whether its content is revoked.
 */
module Coordination {
  import opened Prelude
  import J = Json
  import opened ArtifactContract
  import opened Envelope
  import opened Catalog
  import opened RegressionStore

  datatype Stores = Stores(entries: Entries, regression: Regression)

  function Lookup<K, V>(m: map<K, V>, k: K): Option<V> { if k in m then Some(m[k]) else None }

  predicate Gone(e: CatalogEntry) { e.metadata.state == Tombstoned || e.metadata.state == Purged }

  // ---------------------------------------------------------------- agreement

  /** All that both stores hold about one artifact, with the version that owns it and its revocation. */
  datatype Row = Row(
    stored: Option<Stored>, metadata: Option<Metadata>, ownership: Option<Ownership>,
    tombstone: Option<Tombstone>, version: Option<Version>, revocation: Option<Revocation>)

  function RowOf(s: Stores, k: Key): Row {
    var r := s.regression;
    var o := Lookup(r.ownerships, k);
    Row(Lookup(s.entries, k), Lookup(r.metadata, k), o, Lookup(r.tombstones, k),
        if o.Some? then Lookup(r.versions, OwningVersion(o.value)) else None,
        if o.Some? then Lookup(r.revocations, OwningVersion(o.value)) else None)
  }

  /** The two stores name the same owner, or both none. */
  predicate SameOwner(row: Row) {
    row.ownership == if row.stored.Some? then row.stored.value.entry.ownership else None
  }

  /** An owned artifact is buried if and only if its version is revoked, and then both tombstones agree. */
  predicate OwnedAgrees(k: Key, s: Stored, o: Ownership, row: Row) {
    && k == OwnerKey(o) && s.entry.metadata.scope == o.scope && row.version.Some? && o in Expected(row.version.value)
    && (row.revocation.None? ==> s.entry.metadata.state == Available && row.metadata == Some(s.entry.metadata))
    && (row.revocation.Some? ==>
          && Gone(s.entry) && s.tombstone.Some? && row.tombstone.Some?
          && Fits(row.tombstone.value, o, row.revocation.value)
          && SameTombstone(s.tombstone.value, row.tombstone.value))
  }

  predicate RowAgrees(k: Key, row: Row) {
    && SameOwner(row)
    && (row.stored.Some? ==> KeyOf(row.stored.value.entry) == k && (row.stored.value.tombstone.Some? <==> Gone(row.stored.value.entry)))
    && (row.stored.Some? && row.ownership.Some? ==> OwnedAgrees(k, row.stored.value, row.ownership.value, row))
  }

  predicate VersionAgrees(r: Regression, k: Key)
    requires k in r.versions
  {
    k == VersionKey(r.versions[k]) && DistinctArtifacts(r.versions[k]) && OwnershipsStored(r, r.versions[k])
  }

  ghost predicate Coupled(s: Stores) {
    && (forall k :: RowAgrees(k, RowOf(s, k)))
    && (forall k | k in s.regression.versions :: VersionAgrees(s.regression, k))
    && (forall k | k in s.regression.revocations :: k in s.regression.versions)
  }

  lemma StartsCoupled()
    ensures Coupled(Stores(map[], Regression(map[], map[], map[], map[], map[])))
  {
    var s := Stores(map[], Regression(map[], map[], map[], map[], map[]));
    forall k ensures RowAgrees(k, RowOf(s, k)) {}
  }

  // ---------------------------------------------------------------- catalog operations

  /** What the locked catalog lets its callers do; reading changes nothing. */
  datatype CatalogCall =
    | DoReserve(candidate: CatalogEntry)
    | DoActivate(scope: Scope, artifactId: Id, receipt: Receipt, at: Time)
    | DoTombstone(scope: Scope, tombstone: Tombstone)
    | DoRecordPurge(scope: Scope, purge: PurgeReceipt)

  function CatalogNext(entries: Entries, call: CatalogCall): Entries {
    match call
    case DoReserve(candidate) => Catalog.Reserve(entries, candidate).entries
    case DoActivate(scope, artifactId, receipt, at) => Activate(entries, scope, artifactId, receipt, at).entries
    case DoTombstone(scope, t) => TombstoneEntry(entries, scope, t).entries
    case DoRecordPurge(scope, p) => RecordPurge(entries, scope, p).entries
  }

  function CallKey(call: CatalogCall): Key {
    match call
    case DoReserve(candidate) => KeyOf(candidate)
    case DoActivate(scope, artifactId, _, _) => Key(scope.tenantId, artifactId)
    case DoTombstone(scope, t) => Key(scope.tenantId, t.artifactId)
    case DoRecordPurge(scope, p) => Key(scope.tenantId, p.artifactId)
  }

  lemma CatalogRow(s: Stores, call: CatalogCall, k: Key)
    requires RowAgrees(k, RowOf(s, k))
    ensures RowAgrees(k, RowOf(s.(entries := CatalogNext(s.entries, call)), k))
  {
    if k != CallKey(call) {
      assert Lookup(CatalogNext(s.entries, call), k) == Lookup(s.entries, k);
    }
  }

  lemma CatalogKeeps(s: Stores, call: CatalogCall)
    requires Coupled(s)
    ensures Coupled(s.(entries := CatalogNext(s.entries, call)))
  {
    var v := s.(entries := CatalogNext(s.entries, call));
    forall k ensures RowAgrees(k, RowOf(v, k)) { CatalogRow(s, call, k); }
  }

  // ---------------------------------------------------------------- publication

  datatype After<T> = After(stores: Stores, result: Result<T, StoreError>)

  /** Copy the catalog's record of every bound artifact into the regression store; stop at the first refusal. */
  function SeedAll(entries: Entries, r: Regression, scope: Scope, bs: seq<Binding>): Reply<()>
    decreases |bs|
  {
    if bs == [] then Reply(r, Ok(()))
    else
      match Find(entries, scope, bs[0].reference.artifactId)
      case None => Reply(r, Err(ArtifactNotCoordinated))
      case Some(e) =>
        match Seed(r, e.metadata)
        case Err(error) => Reply(r, Err(error))
        case Ok(next) => SeedAll(entries, next, scope, bs[1..])
  }

  /** exactOwnership: the scope is not compared. */
  predicate Exact(e: Option<CatalogEntry>, o: Ownership) {
    e.Some? && e.value.ownership.Some? && e.value.ownership.value.(scope := o.scope) == o
  }

  predicate Disowned(entries: Entries, o: Ownership) {
    var e := Find(entries, o.scope, o.artifactId);
    e.Some? && e.value.ownership.Some? && !Exact(e, o)
  }

  function ClaimAll(entries: Entries, os: seq<Ownership>): (Entries, Option<StoreError>)
    decreases |os|
  {
    if os == [] then (entries, None)
    else
      var o := Claim(entries, os[0]);
      match o.result
      case Err(error) => (entries, Some(CatalogRefused(error)))
      case Ok(_) => ClaimAll(o.entries, os[1..])
  }

  function FindVersion(r: Regression, v: Version): Result<bool, StoreError> {
    var k := VersionKey(v);
    if k !in r.versions || r.versions[k].scope != v.scope then Ok(false)
    else if !OwnershipsStored(r, r.versions[k]) then Err(Contract)
    else Ok(true)
  }

  /** publishRecordedInteractionFixtureVersion, the whole of what runs inside the mutex. */
  function PublishNext(s: Stores, v: Version, lineage: Option<StoreError>, intentFails: bool): After<Published> {
    match FindVersion(s.regression, v)
    case Err(error) => After(s, Err(error))
    case Ok(found) =>
      var seeded := if found then Reply(s.regression, Ok(())) else SeedAll(s.entries, s.regression, v.scope, v.artifacts);
      match seeded.result
      case Err(error) => After(s.(regression := seeded.store), Err(error))
      case Ok(_) => PublishSeeded(s.(regression := seeded.store), v, lineage, intentFails)
  }

  function PublishSeeded(s: Stores, v: Version, lineage: Option<StoreError>, intentFails: bool): After<Published> {
    var reply := Publish(s.regression, v, lineage, intentFails);
    match reply.result
    case Err(error) => After(s, Err(error))
    case Ok(published) => ClaimPublished(s.(regression := reply.store), published)
  }

  function ClaimPublished(s: Stores, published: Published): After<Published> {
    if exists i :: 0 <= i < |published.ownerships| && Disowned(s.entries, published.ownerships[i]) then
      After(s, Err(OwnershipNotCoordinated))
    else
      var claimed := ClaimAll(s.entries, published.ownerships);
      After(s.(entries := claimed.0), if claimed.1.Some? then Err(claimed.1.value) else Ok(published))
  }

  // ---------------------------------------------------------------- what publication keeps

  lemma SeedRow(s: Stores, e: CatalogEntry, k: Key)
    requires RowAgrees(k, RowOf(s, k)) && RowAgrees(KeyOf(e), RowOf(s, KeyOf(e)))
    requires KeyOf(e) in s.entries && s.entries[KeyOf(e)].entry == e
    requires Seed(s.regression, e.metadata).Ok?
    ensures RowAgrees(k, RowOf(s.(regression := Seed(s.regression, e.metadata).value), k))
  {
  }

  lemma {:induction false} SeedAllKeeps(s: Stores, scope: Scope, bs: seq<Binding>)
    requires Coupled(s)
    ensures var r := SeedAll(s.entries, s.regression, scope, bs).store;
            && Coupled(s.(regression := r))
            && r == s.regression.(metadata := r.metadata)
            && (forall k | k in s.regression.metadata :: k in r.metadata && r.metadata[k] == s.regression.metadata[k])
    decreases |bs|
  {
    if bs != [] && Find(s.entries, scope, bs[0].reference.artifactId).Some? {
      var e := Find(s.entries, scope, bs[0].reference.artifactId).value;
      assert RowAgrees(Key(scope.tenantId, bs[0].reference.artifactId), RowOf(s, Key(scope.tenantId, bs[0].reference.artifactId)));
      if Seed(s.regression, e.metadata).Ok? {
        var v := s.(regression := Seed(s.regression, e.metadata).value);
        forall k ensures RowAgrees(k, RowOf(v, k)) { SeedRow(s, e, k); }
        forall k | k in v.regression.versions ensures VersionAgrees(v.regression, k) { assert VersionAgrees(s.regression, k); }
        SeedAllKeeps(v, scope, bs[1..]);
      }
    }
  }

  /** The seeded record of a bound artifact is the catalog's. */
  predicate Seeded(entries: Entries, r: Regression, scope: Scope, b: Binding) {
    var e := Find(entries, scope, b.reference.artifactId);
    e.Some? && Lookup(r.metadata, ArtifactKey(scope, b)) == Some(e.value.metadata)
  }

  /** Seeding succeeds exactly when no bound artifact is unknown or was seeded in another state before. */
  predicate Seedable(entries: Entries, r: Regression, scope: Scope, b: Binding) {
    var e := Find(entries, scope, b.reference.artifactId);
    e.Some? && (ArtifactKey(scope, b) in r.metadata ==> r.metadata[ArtifactKey(scope, b)] == e.value.metadata)
  }

  lemma {:induction false} SeedAllExactly(s: Stores, scope: Scope, bs: seq<Binding>)
    requires Coupled(s)
    ensures var o := SeedAll(s.entries, s.regression, scope, bs);
            && (o.result.Ok? <==> forall i | 0 <= i < |bs| :: Seedable(s.entries, s.regression, scope, bs[i]))
            && (o.result.Ok? ==> forall i | 0 <= i < |bs| :: Seeded(s.entries, o.store, scope, bs[i]))
    decreases |bs|
  {
    if bs != [] {
      var k := ArtifactKey(scope, bs[0]);
      assert RowAgrees(k, RowOf(s, k));
      assert bs == [bs[0]] + bs[1..];
      if Seedable(s.entries, s.regression, scope, bs[0]) {
        var e := Find(s.entries, scope, bs[0].reference.artifactId).value;
        var v := s.(regression := Seed(s.regression, e.metadata).value);
        forall l ensures RowAgrees(l, RowOf(v, l)) { SeedRow(s, e, l); }
        forall l | l in v.regression.versions ensures VersionAgrees(v.regression, l) { assert VersionAgrees(s.regression, l); }
        SeedAllExactly(v, scope, bs[1..]);
        SeedAllKeeps(v, scope, bs[1..]);
        SeedableOthers(s, e, scope, bs[1..]);
      }
    }
  }

  lemma SeedableOthers(s: Stores, e: CatalogEntry, scope: Scope, bs: seq<Binding>)
    requires Coupled(s) && KeyOf(e) in s.entries && s.entries[KeyOf(e)].entry == e && Seed(s.regression, e.metadata).Ok?
    ensures forall i | 0 <= i < |bs| ::
              Seedable(s.entries, s.regression, scope, bs[i]) <==> Seedable(s.entries, Seed(s.regression, e.metadata).value, scope, bs[i])
  {
  }

  // ---------------------------------------------------------------- claiming

  predicate DistinctOwners(os: seq<Ownership>) { forall i, j | 0 <= i < j < |os| :: OwnerKey(os[i]) != OwnerKey(os[j]) }

  function OwnerIn(os: seq<Ownership>, k: Key): (o: Option<Ownership>)
    ensures o.Some? ==> o.value in os && OwnerKey(o.value) == k
    ensures o.None? ==> forall i | 0 <= i < |os| :: OwnerKey(os[i]) != k
  {
    if os == [] then None else if OwnerKey(os[0]) == k then Some(os[0]) else OwnerIn(os[1..], k)
  }

  lemma {:induction false} OwnAllAt(m: map<Key, Ownership>, os: seq<Ownership>, k: Key)
    requires DistinctOwners(os)
    ensures Lookup(OwnAll(m, os), k) == if OwnerIn(os, k).Some? then OwnerIn(os, k) else Lookup(m, k)
    decreases |os|
  {
    if os != [] { OwnAllAt(m[OwnerKey(os[0]) := os[0]], os[1..], k); }
  }

  predicate Claimable(entries: Entries, o: Ownership) {
    var e := Find(entries, o.scope, o.artifactId);
    e.Some? && e.value.ownership.None? && e.value.metadata.state == Available && e.value.metadata.retention.Retain?
  }

  function Owned(s: Stored, o: Ownership): Stored { s.(entry := s.entry.(ownership := Some(o))) }

  /** Claiming distinct unowned artifacts succeeds for all of them and touches nothing else. */
  lemma {:induction false} ClaimAllAt(entries: Entries, os: seq<Ownership>, k: Key)
    requires DistinctOwners(os) && forall i | 0 <= i < |os| :: Claimable(entries, os[i])
    ensures ClaimAll(entries, os).1.None?
    ensures Lookup(ClaimAll(entries, os).0, k) ==
            if OwnerIn(os, k).Some? && k in entries then Some(Owned(entries[k], OwnerIn(os, k).value)) else Lookup(entries, k)
    decreases |os|
  {
    if os != [] {
      assert Claimable(entries, os[0]);
      var next := Claim(entries, os[0]).entries;
      assert next == entries[OwnerKey(os[0]) := Owned(entries[OwnerKey(os[0])], os[0])];
      forall i | 0 <= i < |os[1..]| ensures Claimable(next, os[1..][i]) {
        assert os[1..][i] == os[i + 1] && Claimable(entries, os[i + 1]) && OwnerKey(os[i + 1]) != OwnerKey(os[0]);
      }
      ClaimAllAt(next, os[1..], k);
    }
  }

  predicate Claimed(entries: Entries, o: Ownership) {
    var e := Find(entries, o.scope, o.artifactId);
    e.Some? && e.value.ownership == Some(o)
  }

  /** Claiming again what is already owned changes nothing. */
  lemma {:induction false} ClaimAllAgain(entries: Entries, os: seq<Ownership>)
    requires forall i | 0 <= i < |os| :: Claimed(entries, os[i])
    ensures ClaimAll(entries, os) == (entries, None)
    decreases |os|
  {
    if os != [] {
      assert Claimed(entries, os[0]);
      assert Claim(entries, os[0]).entries == entries && Claim(entries, os[0]).result.Ok?;
      forall i | 0 <= i < |os[1..]| ensures Claimed(entries, os[1..][i]) { assert os[1..][i] == os[i + 1]; }
      ClaimAllAgain(entries, os[1..]);
    }
  }

  // ---------------------------------------------------------------- a new version

  /** A version about to be stored: its artifacts are seeded, bindable and distinct. */
  ghost predicate Publishing(s: Stores, v: Version) {
    && Coupled(s) && VersionKey(v) !in s.regression.versions && DistinctArtifacts(v)
    && forall i | 0 <= i < |v.artifacts| ::
         Bindable(s.regression, v, v.artifacts[i]) && Seeded(s.entries, s.regression, v.scope, v.artifacts[i])
  }

  function WithVersion(r: Regression, v: Version): Regression {
    r.(versions := r.versions[VersionKey(v) := v], ownerships := OwnAll(r.ownerships, Expected(v)))
  }

  lemma ExpectedClaimable(s: Stores, v: Version, i: nat)
    requires Publishing(s, v) && i < |v.artifacts|
    ensures Claimable(s.entries, Expected(v)[i]) && OwnerKey(Expected(v)[i]) !in s.regression.ownerships
    ensures var k := OwnerKey(Expected(v)[i]);
            && k in s.entries && s.entries[k].entry.metadata.scope == v.scope
            && Lookup(s.regression.metadata, k) == Some(s.entries[k].entry.metadata)
            && s.entries[k].entry.metadata.state == Available
  {
    var k := ArtifactKey(v.scope, v.artifacts[i]);
    assert RowAgrees(k, RowOf(s, k));
    assert Bindable(s.regression, v, v.artifacts[i]) && Seeded(s.entries, s.regression, v.scope, v.artifacts[i]);
  }

  lemma AllClaimable(s: Stores, v: Version)
    requires Publishing(s, v)
    ensures DistinctOwners(Expected(v)) && forall i | 0 <= i < |Expected(v)| :: Claimable(s.entries, Expected(v)[i])
    ensures forall k | k in s.regression.ownerships :: OwnerIn(Expected(v), k).None?
  {
    forall i | 0 <= i < |Expected(v)|
      ensures Claimable(s.entries, Expected(v)[i]) && OwnerKey(Expected(v)[i]) !in s.regression.ownerships {
      ExpectedClaimable(s, v, i);
    }
  }

  lemma PublishedRow(s: Stores, v: Version, k: Key)
    requires Publishing(s, v)
    ensures ClaimAll(s.entries, Expected(v)).1.None?
    ensures RowAgrees(k, RowOf(Stores(ClaimAll(s.entries, Expected(v)).0, WithVersion(s.regression, v)), k))
  {
    AllClaimable(s, v);
    ClaimAllAt(s.entries, Expected(v), k);
    OwnAllAt(s.regression.ownerships, Expected(v), k);
    assert RowAgrees(k, RowOf(s, k));
    var o := OwnerIn(Expected(v), k);
    if o.Some? {
      var i :| 0 <= i < |v.artifacts| && Expected(v)[i] == o.value;
      ExpectedClaimable(s, v, i);
    }
  }

  lemma PublishedVersions(s: Stores, v: Version, k: Key)
    requires Publishing(s, v) && k in WithVersion(s.regression, v).versions
    ensures VersionAgrees(WithVersion(s.regression, v), k)
  {
    var r := WithVersion(s.regression, v);
    AllClaimable(s, v);
    var os := Expected(r.versions[k]);
    forall i | 0 <= i < |os| ensures OwnerKey(os[i]) in r.ownerships && r.ownerships[OwnerKey(os[i])] == os[i] {
      OwnAllAt(s.regression.ownerships, Expected(v), OwnerKey(os[i]));
      if k != VersionKey(v) { assert VersionAgrees(s.regression, k); }
    }
  }

  lemma PublishedCoupled(s: Stores, v: Version)
    requires Publishing(s, v)
    ensures ClaimAll(s.entries, Expected(v)).1.None?
    ensures Coupled(Stores(ClaimAll(s.entries, Expected(v)).0, WithVersion(s.regression, v)))
  {
    var n := Stores(ClaimAll(s.entries, Expected(v)).0, WithVersion(s.regression, v));
    PublishedRow(s, v, VersionKey(v));
    forall k ensures RowAgrees(k, RowOf(n, k)) { PublishedRow(s, v, k); }
    forall k | k in n.regression.versions ensures VersionAgrees(n.regression, k) { PublishedVersions(s, v, k); }
  }

  // ---------------------------------------------------------------- publication, exactly

  lemma StoredClaimed(s: Stores, k: Key, i: nat)
    requires Coupled(s) && k in s.regression.versions && i < |Expected(s.regression.versions[k])|
    ensures Claimed(s.entries, Expected(s.regression.versions[k])[i])
  {
    assert VersionAgrees(s.regression, k);
    var o := Expected(s.regression.versions[k])[i];
    assert RowAgrees(OwnerKey(o), RowOf(s, OwnerKey(o)));
  }

  /** Publishing a version again finds everything claimed already. */
  lemma RepublishedUnchanged(s: Stores, k: Key)
    requires Coupled(s) && k in s.regression.versions
    ensures var v := s.regression.versions[k];
            ClaimPublished(s, Published(false, Expected(v), v)) == After(s, Ok(Published(false, Expected(v), v)))
  {
    var os := Expected(s.regression.versions[k]);
    forall i | 0 <= i < |os| ensures Claimed(s.entries, os[i]) && !Disowned(s.entries, os[i]) { StoredClaimed(s, k, i); }
    ClaimAllAgain(s.entries, os);
  }

  lemma PublishedClaims(s: Stores, v: Version)
    requires Publishing(s, v)
    ensures var o := ClaimPublished(s.(regression := WithVersion(s.regression, v)), Published(true, Expected(v), v));
            && o.result == Ok(Published(true, Expected(v), v))
            && o.stores == Stores(ClaimAll(s.entries, Expected(v)).0, WithVersion(s.regression, v))
  {
    AllClaimable(s, v);
    PublishedCoupled(s, v);
    forall i | 0 <= i < |Expected(v)| ensures !Disowned(s.entries, Expected(v)[i]) { assert Claimable(s.entries, Expected(v)[i]); }
  }

  /** A version that the stores already hold can be published again only as it is. */
  lemma StoredPublishes(s: Stores, v: Version, lineage: Option<StoreError>, intentFails: bool)
    requires Coupled(s) && DistinctArtifacts(v) && VersionKey(v) in s.regression.versions
    ensures var stored := s.regression.versions[VersionKey(v)];
            PublishSeeded(s, v, lineage, intentFails) ==
              if stored.definition == v.definition then After(s, Ok(Published(false, Expected(stored), stored)))
              else After(s, Err(VersionConflict))
  {
    assert VersionAgrees(s.regression, VersionKey(v));
    RepublishedUnchanged(s, VersionKey(v));
  }

  predicate AllBindable(r: Regression, v: Version) { forall i | 0 <= i < |v.artifacts| :: Bindable(r, v, v.artifacts[i]) }

  predicate AllSeeded(entries: Entries, r: Regression, v: Version) {
    forall i | 0 <= i < |v.artifacts| :: Seeded(entries, r, v.scope, v.artifacts[i])
  }

  lemma NewPublishes(s: Stores, v: Version, lineage: Option<StoreError>, intentFails: bool)
    requires Coupled(s) && VersionKey(v) !in s.regression.versions && AllSeeded(s.entries, s.regression, v)
    ensures var o := PublishSeeded(s, v, lineage, intentFails);
            && Coupled(o.stores)
            && (o.result.Ok? <==> DistinctArtifacts(v) && lineage.None? && AllBindable(s.regression, v) && !intentFails)
            && (o.result.Ok? ==> o.stores == Stores(ClaimAll(s.entries, Expected(v)).0, WithVersion(s.regression, v)))
            && (o.result.Err? ==>
                  && o.stores == s
                  && o.result.error in {InvalidVersion, BindingRefused, IntentFailure} + (if lineage.Some? then {lineage.value} else {}))
  {
    if DistinctArtifacts(v) && lineage.None? && AllBindable(s.regression, v) && !intentFails {
      PublishedClaims(s, v);
      PublishedCoupled(s, v);
    }
  }

  /**
    Whatever it answers, publication leaves the stores in agreement, and neither refusal for stores
    that disagree can happen: not the one over ownership, and none from the catalog half way through.
   */
  lemma PublishKeeps(s: Stores, v: Version, lineage: Option<StoreError>, intentFails: bool)
    requires Coupled(s) && (lineage.Some? ==> lineage.value == Lineage || lineage.value == VersionConflict)
    ensures var o := PublishNext(s, v, lineage, intentFails);
            && Coupled(o.stores)
            && (o.result.Err? ==> o.result.error != OwnershipNotCoordinated && o.result.error != Contract && !o.result.error.CatalogRefused?)
  {
    var k := VersionKey(v);
    if k in s.regression.versions { assert VersionAgrees(s.regression, k); }
    if FindVersion(s.regression, v) == Ok(true) {
      if DistinctArtifacts(v) { StoredPublishes(s, v, lineage, intentFails); }
    } else {
      SeedAllKeeps(s, v.scope, v.artifacts);
      SeedAllExactly(s, v.scope, v.artifacts);
      SeedErrors(s.entries, s.regression, v.scope, v.artifacts);
      var seeded := SeedAll(s.entries, s.regression, v.scope, v.artifacts);
      var n := s.(regression := seeded.store);
      if seeded.result.Ok? {
        if k !in s.regression.versions { NewPublishes(n, v, lineage, intentFails); }
        else if DistinctArtifacts(v) { StoredPublishes(n, v, lineage, intentFails); }
      }
    }
  }

  lemma {:induction false} SeedErrors(entries: Entries, r: Regression, scope: Scope, bs: seq<Binding>)
    ensures var o := SeedAll(entries, r, scope, bs); o.result.Err? ==> o.result.error == ArtifactNotCoordinated || o.result.error == BindingRefused
    decreases |bs|
  {
    if bs != [] {
      var f := Find(entries, scope, bs[0].reference.artifactId);
      if f.Some? && Seed(r, f.value.metadata).Ok? { SeedErrors(entries, Seed(r, f.value.metadata).value, scope, bs[1..]); }
    }
  }

  /** What the catalog must show of an artifact, and what an earlier seeding must not have fixed otherwise. */
  predicate Publishable(s: Stores, v: Version, b: Binding) {
    var f := Find(s.entries, v.scope, b.reference.artifactId);
    && Seedable(s.entries, s.regression, v.scope, b)
    && f.value.ownership.None? && f.value.metadata.state == Available && f.value.metadata.retention.Retain?
    && f.value.metadata.contentReference == b.reference && f.value.metadata.redaction == b.redaction
  }

  lemma BindableExactly(s: Stores, r: Regression, v: Version, b: Binding)
    requires Coupled(s) && Seeded(s.entries, r, v.scope, b) && r.ownerships == s.regression.ownerships
    requires Seedable(s.entries, s.regression, v.scope, b)
    ensures Bindable(r, v, b) <==> Publishable(s, v, b)
  {
    var k := ArtifactKey(v.scope, b);
    assert RowAgrees(k, RowOf(s, k));
  }

  /**
    A new version is published if and only if its artifacts are distinct, its lineage is accepted,
    the outbox takes the intent, and every artifact is available, retained, unowned and as bound in
    the catalog, and was not seeded earlier in another state.  It then owns each of them in both
    stores; otherwise nothing but seeded records has changed.
   */
  lemma PublishExactly(s: Stores, v: Version, lineage: Option<StoreError>, intentFails: bool)
    requires Coupled(s) && VersionKey(v) !in s.regression.versions
    ensures var o := PublishNext(s, v, lineage, intentFails);
            && (o.result.Ok? <==>
                  && DistinctArtifacts(v) && lineage.None? && !intentFails
                  && forall i | 0 <= i < |v.artifacts| :: Publishable(s, v, v.artifacts[i]))
            && (o.result.Ok? ==> forall i | 0 <= i < |v.artifacts| :: Claimed(o.stores.entries, OwnershipBy(v, v.artifacts[i])))
            && (o.result.Err? ==> o.stores == s.(regression := s.regression.(metadata := o.stores.regression.metadata)))
  {
    SeedAllKeeps(s, v.scope, v.artifacts);
    SeedAllExactly(s, v.scope, v.artifacts);
    var seeded := SeedAll(s.entries, s.regression, v.scope, v.artifacts);
    var n := s.(regression := seeded.store);
    if seeded.result.Ok? {
      NewPublishes(n, v, lineage, intentFails);
      forall i | 0 <= i < |v.artifacts| ensures Bindable(n.regression, v, v.artifacts[i]) <==> Publishable(s, v, v.artifacts[i]) {
        BindableExactly(s, n.regression, v, v.artifacts[i]);
      }
      if PublishSeeded(n, v, lineage, intentFails).result.Ok? { NewClaims(n, v); }
    } else {
      var i :| 0 <= i < |v.artifacts| && !Seedable(s.entries, s.regression, v.scope, v.artifacts[i]);
      assert !Publishable(s, v, v.artifacts[i]);
    }
  }

  lemma NewClaims(s: Stores, v: Version)
    requires Publishing(s, v)
    ensures forall i | 0 <= i < |v.artifacts| :: Claimed(ClaimAll(s.entries, Expected(v)).0, OwnershipBy(v, v.artifacts[i]))
  {
    AllClaimable(s, v);
    forall i | 0 <= i < |v.artifacts| ensures Claimed(ClaimAll(s.entries, Expected(v)).0, OwnershipBy(v, v.artifacts[i])) {
      ExpectedClaimable(s, v, i);
      ClaimAllAt(s.entries, Expected(v), OwnerKey(Expected(v)[i]));
    }
  }

  // ---------------------------------------------------------------- revocation

  function BuryAll(entries: Entries, scope: Scope, ts: seq<Tombstone>): (Entries, Option<StoreError>)
    decreases |ts|
  {
    if ts == [] then (entries, None)
    else
      var o := TombstoneOwned(entries, scope, ts[0]);
      match o.result
      case Err(error) => (entries, Some(CatalogRefused(error)))
      case Ok(_) => BuryAll(o.entries, scope, ts[1..])
  }

  predicate AnyInexact(entries: Entries, os: seq<Ownership>) {
    exists i :: 0 <= i < |os| && !Exact(Find(entries, os[i].scope, os[i].artifactId), os[i])
  }

  /** revokeRecordedInteractionFixtureContent, the whole of what runs inside the mutex. */
  function RevokeNext(s: Stores, revocation: Revocation, ts: seq<Tombstone>, intentFails: bool): After<Revoked> {
    match FindContent(s.regression, revocation.scope, revocation.fixtureVersionId)
    case Err(error) => After(s, Err(error))
    case Ok(found) =>
      if found.Some? && AnyInexact(s.entries, Expected(found.value)) then After(s, Err(OwnershipNotCoordinated))
      else RevokeFound(s, revocation, ts, intentFails)
  }

  function RevokeFound(s: Stores, revocation: Revocation, ts: seq<Tombstone>, intentFails: bool): After<Revoked> {
    var reply := Revoke(s.regression, revocation, ts, intentFails);
    match reply.result
    case Err(error) => After(s, Err(error))
    case Ok(revoked) =>
      var buried := BuryAll(s.entries, revoked.version.scope, revoked.tombstones);
      After(Stores(buried.0, reply.store), if buried.1.Some? then Err(buried.1.value) else Ok(revoked))
  }

  predicate DistinctStones(ts: seq<Tombstone>) { forall i, j | 0 <= i < j < |ts| :: ts[i].artifactId != ts[j].artifactId }

  function StoneIn(ts: seq<Tombstone>, tenantId: Id, k: Key): (t: Option<Tombstone>)
    ensures t.Some? ==> exists i :: 0 <= i < |ts| && ts[i] == t.value && k == Key(tenantId, ts[i].artifactId)
    ensures t.None? ==> forall i | 0 <= i < |ts| :: Key(tenantId, ts[i].artifactId) != k
  {
    if ts == [] then None else if Key(tenantId, ts[0].artifactId) == k then Some(ts[0]) else StoneIn(ts[1..], tenantId, k)
  }

  predicate Buriable(entries: Entries, scope: Scope, t: Tombstone) {
    var k := Key(scope.tenantId, t.artifactId);
    && Find(entries, scope, t.artifactId).Some? && t.trigger == FixtureRevocation
    && entries[k].entry.ownership.Some? && entries[k].tombstone.None? && entries[k].entry.metadata.state == Available
  }

  lemma {:induction false} BuryAllAt(entries: Entries, scope: Scope, ts: seq<Tombstone>, k: Key)
    requires DistinctStones(ts) && forall i | 0 <= i < |ts| :: Buriable(entries, scope, ts[i])
    ensures BuryAll(entries, scope, ts).1.None?
    ensures Lookup(BuryAll(entries, scope, ts).0, k) ==
            var t := StoneIn(ts, scope.tenantId, k);
            if t.Some? && k in entries then Some(Bury(entries[k], t.value)) else Lookup(entries, k)
    decreases |ts|
  {
    if ts != [] {
      assert Buriable(entries, scope, ts[0]);
      var l := Key(scope.tenantId, ts[0].artifactId);
      var next := TombstoneOwned(entries, scope, ts[0]).entries;
      assert next == entries[l := Bury(entries[l], ts[0])];
      forall i | 0 <= i < |ts[1..]| ensures Buriable(next, scope, ts[1..][i]) {
        assert ts[1..][i] == ts[i + 1] && Buriable(entries, scope, ts[i + 1]) && ts[i + 1].artifactId != ts[0].artifactId;
      }
      BuryAllAt(next, scope, ts[1..], k);
    }
  }

  predicate AlreadyBuried(entries: Entries, scope: Scope, t: Tombstone) {
    var k := Key(scope.tenantId, t.artifactId);
    && Find(entries, scope, t.artifactId).Some? && t.trigger == FixtureRevocation
    && entries[k].entry.ownership.Some? && entries[k].tombstone.Some? && SameTombstone(entries[k].tombstone.value, t)
  }

  lemma {:induction false} BuryAllAgain(entries: Entries, scope: Scope, ts: seq<Tombstone>)
    requires forall i | 0 <= i < |ts| :: AlreadyBuried(entries, scope, ts[i])
    ensures BuryAll(entries, scope, ts) == (entries, None)
    decreases |ts|
  {
    if ts != [] {
      assert AlreadyBuried(entries, scope, ts[0]);
      forall i | 0 <= i < |ts[1..]| ensures AlreadyBuried(entries, scope, ts[1..][i]) { assert ts[1..][i] == ts[i + 1]; }
      BuryAllAgain(entries, scope, ts[1..]);
    }
  }

  /** What a revocation does to the regression store's two records of one artifact. */
  lemma {:induction false} RevokeAllAt(r: Regression, os: seq<Ownership>, ts: seq<Tombstone>, tenantId: Id, k: Key)
    requires |os| == |ts| && forall i | 0 <= i < |os| :: OwnerKey(os[i]) in r.metadata
    requires DistinctStones(ts) && forall i | 0 <= i < |os| :: OwnerKey(os[i]) == Key(tenantId, ts[i].artifactId)
    ensures var n := RevokeAll(r, os, ts);
            var t := StoneIn(ts, tenantId, k);
            && n == r.(metadata := n.metadata, tombstones := n.tombstones)
            && Lookup(n.tombstones, k) == (if t.Some? then t else Lookup(r.tombstones, k))
            && Lookup(n.metadata, k) == (if t.Some? && k in r.metadata then Some(Buried(r.metadata[k], t.value)) else Lookup(r.metadata, k))
    decreases |os|
  {
    if os != [] {
      var l := OwnerKey(os[0]);
      var next := r.(tombstones := r.tombstones[l := ts[0]], metadata := r.metadata[l := Buried(r.metadata[l], ts[0])]);
      RevokeAllAt(next, os[1..], ts[1..], tenantId, k);
    }
  }

  /** A revocation about to be recorded: new, of a stored version, with one fitting tombstone per artifact. */
  ghost predicate Revoking(s: Stores, revocation: Revocation, ts: seq<Tombstone>) {
    var k := Key(revocation.scope.tenantId, revocation.fixtureVersionId);
    && Coupled(s) && k in s.regression.versions && k !in s.regression.revocations
    && s.regression.versions[k].scope == revocation.scope
    && var os := Expected(s.regression.versions[k]);
       |ts| == |os| && forall i | 0 <= i < |os| :: Revocable(s.regression, os[i], ts[i], revocation)
  }

  function RevokedVersion(s: Stores, revocation: Revocation): Version
    requires Key(revocation.scope.tenantId, revocation.fixtureVersionId) in s.regression.versions
  {
    s.regression.versions[Key(revocation.scope.tenantId, revocation.fixtureVersionId)]
  }

  lemma RevokedArtifact(s: Stores, revocation: Revocation, ts: seq<Tombstone>, i: nat)
    requires Revoking(s, revocation, ts) && i < |ts|
    ensures var o := Expected(RevokedVersion(s, revocation))[i];
            && OwnerKey(o) == Key(revocation.scope.tenantId, ts[i].artifactId)
            && Buriable(s.entries, revocation.scope, ts[i])
            && OwnerKey(o) in s.regression.metadata
            && Lookup(s.regression.ownerships, OwnerKey(o)) == Some(o)
            && s.regression.metadata[OwnerKey(o)] == s.entries[OwnerKey(o)].entry.metadata
  {
    var o := Expected(RevokedVersion(s, revocation))[i];
    assert Revocable(s.regression, o, ts[i], revocation);
    assert VersionAgrees(s.regression, Key(revocation.scope.tenantId, revocation.fixtureVersionId));
    assert RowAgrees(OwnerKey(o), RowOf(s, OwnerKey(o)));
  }

  lemma AllRevoked(s: Stores, revocation: Revocation, ts: seq<Tombstone>)
    requires Revoking(s, revocation, ts)
    ensures DistinctStones(ts)
    ensures forall i | 0 <= i < |ts| :: Buriable(s.entries, revocation.scope, ts[i])
    ensures var os := Expected(RevokedVersion(s, revocation));
            forall i | 0 <= i < |os| ::
              OwnerKey(os[i]) in s.regression.metadata && OwnerKey(os[i]) == Key(revocation.scope.tenantId, ts[i].artifactId)
  {
    var v := RevokedVersion(s, revocation);
    assert VersionAgrees(s.regression, Key(revocation.scope.tenantId, revocation.fixtureVersionId));
    forall i | 0 <= i < |ts|
      ensures Buriable(s.entries, revocation.scope, ts[i]) && OwnerKey(Expected(v)[i]) in s.regression.metadata
      ensures OwnerKey(Expected(v)[i]) == Key(revocation.scope.tenantId, ts[i].artifactId) {
      RevokedArtifact(s, revocation, ts, i);
    }
    assert forall i | 0 <= i < |ts| :: ts[i].artifactId == v.artifacts[i].reference.artifactId by {
      forall i | 0 <= i < |ts| ensures ts[i].artifactId == v.artifacts[i].reference.artifactId {
        assert OwnerKey(Expected(v)[i]) == Key(revocation.scope.tenantId, ts[i].artifactId);
      }
    }
  }

  function WithRevocation(s: Stores, revocation: Revocation, ts: seq<Tombstone>): Regression
    requires Key(revocation.scope.tenantId, revocation.fixtureVersionId) in s.regression.versions
    requires var os := Expected(RevokedVersion(s, revocation));
             |os| == |ts| && forall i | 0 <= i < |os| :: OwnerKey(os[i]) in s.regression.metadata
  {
    var k := Key(revocation.scope.tenantId, revocation.fixtureVersionId);
    RevokeAll(s.regression, Expected(RevokedVersion(s, revocation)), ts).(revocations := s.regression.revocations[k := revocation])
  }

  /** A row after the revocation, from the row before it. */
  function RevokedRowOf(row: Row, t: Option<Tombstone>, revocation: Revocation): Row {
    if t.None? || row.stored.None? then row
    else row.(stored := Some(Bury(row.stored.value, t.value)), tombstone := t, revocation := Some(revocation),
              metadata := if row.metadata.Some? then Some(Buried(row.metadata.value, t.value)) else None)
  }

  lemma RevokedRowAgrees(s: Stores, revocation: Revocation, ts: seq<Tombstone>, k: Key)
    requires Revoking(s, revocation, ts)
    ensures RowAgrees(k, RevokedRowOf(RowOf(s, k), StoneIn(ts, revocation.scope.tenantId, k), revocation))
  {
    assert RowAgrees(k, RowOf(s, k));
    var t := StoneIn(ts, revocation.scope.tenantId, k);
    if t.Some? {
      var i :| 0 <= i < |ts| && ts[i] == t.value && k == Key(revocation.scope.tenantId, ts[i].artifactId);
      RevokedArtifact(s, revocation, ts, i);
      assert Revocable(s.regression, Expected(RevokedVersion(s, revocation))[i], ts[i], revocation);
    }
  }

  lemma RevokedRow(s: Stores, revocation: Revocation, ts: seq<Tombstone>, k: Key)
    requires Revoking(s, revocation, ts)
    requires var os := Expected(RevokedVersion(s, revocation)); forall i | 0 <= i < |os| :: OwnerKey(os[i]) in s.regression.metadata
    ensures BuryAll(s.entries, revocation.scope, ts).1.None?
    ensures RowOf(Stores(BuryAll(s.entries, revocation.scope, ts).0, WithRevocation(s, revocation, ts)), k) ==
            RevokedRowOf(RowOf(s, k), StoneIn(ts, revocation.scope.tenantId, k), revocation)
  {
    AllRevoked(s, revocation, ts);
    BuryAllAt(s.entries, revocation.scope, ts, k);
    RevokeAllAt(s.regression, Expected(RevokedVersion(s, revocation)), ts, revocation.scope.tenantId, k);
    RevokedOwner(s, revocation, ts, k);
  }

  /** Exactly the artifacts with a tombstone in this revocation belong to its version. */
  lemma RevokedOwner(s: Stores, revocation: Revocation, ts: seq<Tombstone>, k: Key)
    requires Revoking(s, revocation, ts)
    ensures var o := Lookup(s.regression.ownerships, k);
            StoneIn(ts, revocation.scope.tenantId, k).Some? <==>
              o.Some? && OwningVersion(o.value) == Key(revocation.scope.tenantId, revocation.fixtureVersionId)
    ensures StoneIn(ts, revocation.scope.tenantId, k).Some? ==> k in s.entries && k in s.regression.metadata
  {
    var t := StoneIn(ts, revocation.scope.tenantId, k);
    if t.Some? {
      var i :| 0 <= i < |ts| && ts[i] == t.value && k == Key(revocation.scope.tenantId, ts[i].artifactId);
      RevokedArtifact(s, revocation, ts, i);
      assert VersionAgrees(s.regression, Key(revocation.scope.tenantId, revocation.fixtureVersionId));
    } else if k in s.regression.ownerships {
      NotRevokedHere(s, revocation, ts, k);
    }
  }

  /** An artifact without a tombstone in this revocation belongs to another version, or to none. */
  lemma NotRevokedHere(s: Stores, revocation: Revocation, ts: seq<Tombstone>, k: Key)
    requires Revoking(s, revocation, ts) && StoneIn(ts, revocation.scope.tenantId, k).None? && k in s.regression.ownerships
    ensures OwningVersion(s.regression.ownerships[k]) != Key(revocation.scope.tenantId, revocation.fixtureVersionId)
  {
    var o := s.regression.ownerships[k];
    var v := RevokedVersion(s, revocation);
    assert RowAgrees(k, RowOf(s, k));
    forall i | 0 <= i < |Expected(v)| ensures Expected(v)[i] != o {
      RevokedArtifact(s, revocation, ts, i);
    }
    assert o !in Expected(v);
  }

  lemma RevokedCoupled(s: Stores, revocation: Revocation, ts: seq<Tombstone>)
    requires Revoking(s, revocation, ts)
    requires var os := Expected(RevokedVersion(s, revocation)); forall i | 0 <= i < |os| :: OwnerKey(os[i]) in s.regression.metadata
    ensures BuryAll(s.entries, revocation.scope, ts).1.None?
    ensures Coupled(Stores(BuryAll(s.entries, revocation.scope, ts).0, WithRevocation(s, revocation, ts)))
  {
    var n := Stores(BuryAll(s.entries, revocation.scope, ts).0, WithRevocation(s, revocation, ts));
    RevokedRow(s, revocation, ts, Key(revocation.scope.tenantId, []));
    forall k ensures RowAgrees(k, RowOf(n, k)) {
      RevokedRowAgrees(s, revocation, ts, k);
      RevokedRow(s, revocation, ts, k);
    }
    AllRevoked(s, revocation, ts);
    RevokeAllAt(s.regression, Expected(RevokedVersion(s, revocation)), ts, revocation.scope.tenantId, Key([], []));
    forall k | k in n.regression.versions ensures VersionAgrees(n.regression, k) { assert VersionAgrees(s.regression, k); }
  }

  /** The stored tombstones of a revoked version, and the catalog's, agree with its revocation. */
  lemma StoredRevocation(s: Stores, k: Key)
    requires Coupled(s) && k in s.regression.versions && k in s.regression.revocations
    ensures var v := s.regression.versions[k];
            && StonesStored(s.regression, v, s.regression.revocations[k])
            && forall i | 0 <= i < |Expected(v)| ::
                 AlreadyBuried(s.entries, v.scope, s.regression.tombstones[OwnerKey(Expected(v)[i])])
  {
    var v := s.regression.versions[k];
    assert VersionAgrees(s.regression, k);
    forall i | 0 <= i < |Expected(v)|
      ensures OwnerKey(Expected(v)[i]) in s.regression.tombstones
      ensures Fits(s.regression.tombstones[OwnerKey(Expected(v)[i])], Expected(v)[i], s.regression.revocations[k])
      ensures AlreadyBuried(s.entries, v.scope, s.regression.tombstones[OwnerKey(Expected(v)[i])]) {
      var l := OwnerKey(Expected(v)[i]);
      assert RowAgrees(l, RowOf(s, l));
    }
  }

  lemma AllExact(s: Stores, k: Key)
    requires Coupled(s) && k in s.regression.versions
    ensures !AnyInexact(s.entries, Expected(s.regression.versions[k]))
  {
    var os := Expected(s.regression.versions[k]);
    forall i | 0 <= i < |os| ensures Exact(Find(s.entries, os[i].scope, os[i].artifactId), os[i]) { StoredClaimed(s, k, i); }
  }

  /**
    Whatever it answers, revocation leaves the stores in agreement, and neither the refusal over
    ownership nor one from the catalog half way through can happen.  A contract refusal means that
    the tombstones that were handed in do not fit.
   */
  lemma RevokeKeeps(s: Stores, revocation: Revocation, ts: seq<Tombstone>, intentFails: bool)
    requires Coupled(s)
    ensures var o := RevokeNext(s, revocation, ts, intentFails);
            && Coupled(o.stores)
            && (o.result.Err? ==> o.stores == s && o.result.error != OwnershipNotCoordinated && !o.result.error.CatalogRefused?)
            && (o.result.Ok? ==> Key(revocation.scope.tenantId, revocation.fixtureVersionId) in o.stores.regression.revocations)
  {
    var k := Key(revocation.scope.tenantId, revocation.fixtureVersionId);
    if k in s.regression.versions {
      assert VersionAgrees(s.regression, k);
      AllExact(s, k);
      if k in s.regression.revocations {
        StoredRevocation(s, k);
        RevokedAgain(s, revocation, ts, intentFails);
      } else {
        RevokedFirst(s, revocation, ts, intentFails);
      }
    }
  }

  lemma RevokedAgain(s: Stores, revocation: Revocation, ts: seq<Tombstone>, intentFails: bool)
    requires Coupled(s)
    requires var k := Key(revocation.scope.tenantId, revocation.fixtureVersionId); k in s.regression.versions && k in s.regression.revocations
    ensures RevokeFound(s, revocation, ts, intentFails).stores == s
    ensures var o := RevokeFound(s, revocation, ts, intentFails).result;
            o.Err? ==> o.error != OwnershipNotCoordinated && !o.error.CatalogRefused?
  {
    var k := Key(revocation.scope.tenantId, revocation.fixtureVersionId);
    StoredRevocation(s, k);
    var v := s.regression.versions[k];
    BuryAllAgain(s.entries, v.scope, Stones(s.regression, Expected(v)));
  }

  lemma RevokedFirst(s: Stores, revocation: Revocation, ts: seq<Tombstone>, intentFails: bool)
    requires Coupled(s)
    requires var k := Key(revocation.scope.tenantId, revocation.fixtureVersionId); k in s.regression.versions && k !in s.regression.revocations
    ensures var o := RevokeFound(s, revocation, ts, intentFails);
            && Coupled(o.stores)
            && (o.result.Err? ==> o.stores == s && o.result.error != OwnershipNotCoordinated && !o.result.error.CatalogRefused?)
            && (o.result.Ok? ==> Key(revocation.scope.tenantId, revocation.fixtureVersionId) in o.stores.regression.revocations)
  {
    if Revoke(s.regression, revocation, ts, intentFails).result.Ok? {
      AllRevoked(s, revocation, ts);
      RevokedCoupled(s, revocation, ts);
    }
  }

  // ---------------------------------------------------------------- every run of the adapters

  /** Calls inside the mutex take effect one after another. */
  datatype AdapterCall =
    | OnCatalog(call: CatalogCall)
    | OnPublish(version: Version, lineage: Option<StoreError>, intentFails: bool)
    | OnRevoke(revocation: Revocation, tombstones: seq<Tombstone>, intentFails: bool)

  predicate LineageAnswer(call: AdapterCall) {
    call.OnPublish? && call.lineage.Some? ==> call.lineage.value == Lineage || call.lineage.value == VersionConflict
  }

  function AdapterNext(s: Stores, call: AdapterCall): Stores {
    match call
    case OnCatalog(c) => s.(entries := CatalogNext(s.entries, c))
    case OnPublish(v, lineage, intentFails) => PublishNext(s, v, lineage, intentFails).stores
    case OnRevoke(revocation, ts, intentFails) => RevokeNext(s, revocation, ts, intentFails).stores
  }

  function AdapterRun(s: Stores, calls: seq<AdapterCall>): Stores
    decreases |calls|
  {
    if calls == [] then s else AdapterRun(AdapterNext(s, calls[0]), calls[1..])
  }

  lemma AdapterKeeps(s: Stores, call: AdapterCall)
    requires Coupled(s) && LineageAnswer(call)
    ensures Coupled(AdapterNext(s, call))
  {
    match call {
      case OnCatalog(c) => CatalogKeeps(s, c);
      case OnPublish(v, lineage, intentFails) => PublishKeeps(s, v, lineage, intentFails);
      case OnRevoke(revocation, ts, intentFails) => RevokeKeeps(s, revocation, ts, intentFails);
    }
  }

  lemma {:induction false} AdapterRunKeeps(s: Stores, calls: seq<AdapterCall>)
    requires Coupled(s) && forall i | 0 <= i < |calls| :: LineageAnswer(calls[i])
    ensures Coupled(AdapterRun(s, calls))
    decreases |calls|
  {
    if calls != [] {
      assert LineageAnswer(calls[0]);
      AdapterKeeps(s, calls[0]);
      forall i | 0 <= i < |calls[1..]| ensures LineageAnswer(calls[1..][i]) { assert calls[1..][i] == calls[i + 1]; }
      AdapterRunKeeps(AdapterNext(s, calls[0]), calls[1..]);
    }
  }

  function Empty(): Stores { Stores(map[], Regression(map[], map[], map[], map[], map[])) }

  /**
    The two stores never diverge.  After any calls whatever, each returning or throwing: an artifact
    has the same owner in both, and an owned artifact is tombstoned or purged if and only if the
    content of the version that owns it has been revoked.
   */
  lemma NeverDiverge(calls: seq<AdapterCall>, k: Key)
    requires forall i | 0 <= i < |calls| :: LineageAnswer(calls[i])
    ensures var s := AdapterRun(Empty(), calls);
            && Lookup(s.regression.ownerships, k) == (if k in s.entries then s.entries[k].entry.ownership else None)
            && (k in s.regression.ownerships ==>
                  (Gone(s.entries[k].entry) <==> OwningVersion(s.regression.ownerships[k]) in s.regression.revocations))
  {
    StartsCoupled();
    AdapterRunKeeps(Empty(), calls);
    var s := AdapterRun(Empty(), calls);
    assert RowAgrees(k, RowOf(s, k));
  }

  // ---------------------------------------------------------------- a seeded record that has fallen behind

  /** The regression store was given this artifact's record in an earlier state than the catalog now shows. */
  predicate FallenBehind(s: Stores, k: Key) {
    && k in s.entries && k in s.regression.metadata && k !in s.regression.ownerships
    && StateRank(s.regression.metadata[k].state) < StateRank(s.entries[k].entry.metadata.state)
  }

  lemma CatalogOnlyAdvances(entries: Entries, call: CatalogCall, k: Key)
    requires k in entries
    ensures var next := CatalogNext(entries, call);
            k in next && StateRank(entries[k].entry.metadata.state) <= StateRank(next[k].entry.metadata.state)
  {
  }

  lemma PublishLeavesBehind(s: Stores, v: Version, lineage: Option<StoreError>, intentFails: bool, k: Key)
    requires Coupled(s) && FallenBehind(s, k)
    ensures FallenBehind(PublishNext(s, v, lineage, intentFails).stores, k)
  {
    SeedAllKeeps(s, v.scope, v.artifacts);
    SeedAllExactly(s, v.scope, v.artifacts);
    var seeded := SeedAll(s.entries, s.regression, v.scope, v.artifacts);
    var n := s.(regression := seeded.store);
    if VersionKey(v) in s.regression.versions {
      assert VersionAgrees(s.regression, VersionKey(v));
      if DistinctArtifacts(v) {
        StoredPublishes(s, v, lineage, intentFails);
        StoredPublishes(n, v, lineage, intentFails);
      }
    } else if seeded.result.Ok? {
      NewPublishes(n, v, lineage, intentFails);
      if PublishSeeded(n, v, lineage, intentFails).result.Ok? { NewVersionElsewhere(s, n, v, k); }
    }
  }

  lemma NewVersionElsewhere(s: Stores, n: Stores, v: Version, k: Key)
    requires Publishing(n, v) && FallenBehind(s, k) && FallenBehind(n, k)
    ensures FallenBehind(Stores(ClaimAll(n.entries, Expected(v)).0, WithVersion(n.regression, v)), k)
  {
    AllClaimable(n, v);
    ClaimAllAt(n.entries, Expected(v), k);
    OwnAllAt(n.regression.ownerships, Expected(v), k);
    forall i | 0 <= i < |Expected(v)| ensures OwnerKey(Expected(v)[i]) != k { ExpectedClaimable(n, v, i); }
  }

  lemma RevokeLeavesBehind(s: Stores, revocation: Revocation, ts: seq<Tombstone>, intentFails: bool, k: Key)
    requires Coupled(s) && FallenBehind(s, k)
    ensures FallenBehind(RevokeNext(s, revocation, ts, intentFails).stores, k)
  {
    RevokeKeeps(s, revocation, ts, intentFails);
    var o := RevokeNext(s, revocation, ts, intentFails);
    var l := Key(revocation.scope.tenantId, revocation.fixtureVersionId);
    if o.result.Ok? {
      if l in s.regression.revocations {
        RevokedAgain(s, revocation, ts, intentFails);
      } else {
        AllRevoked(s, revocation, ts);
        RevokedRow(s, revocation, ts, k);
        RevokedOwner(s, revocation, ts, k);
        RevokeAllAt(s.regression, Expected(RevokedVersion(s, revocation)), ts, revocation.scope.tenantId, k);
        assert RowOf(o.stores, k) == RowOf(s, k);
      }
    }
  }

  lemma {:induction false} FallenBehindForever(s: Stores, calls: seq<AdapterCall>, k: Key)
    requires Coupled(s) && FallenBehind(s, k) && forall i | 0 <= i < |calls| :: LineageAnswer(calls[i])
    ensures Coupled(AdapterRun(s, calls)) && FallenBehind(AdapterRun(s, calls), k)
    decreases |calls|
  {
    if calls != [] {
      assert LineageAnswer(calls[0]);
      AdapterKeeps(s, calls[0]);
      match calls[0] {
        case OnCatalog(c) => CatalogOnlyAdvances(s.entries, c, k);
        case OnPublish(v, lineage, intentFails) => PublishLeavesBehind(s, v, lineage, intentFails, k);
        case OnRevoke(revocation, ts, intentFails) => RevokeLeavesBehind(s, revocation, ts, intentFails, k);
      }
      forall i | 0 <= i < |calls[1..]| ensures LineageAnswer(calls[1..][i]) { assert calls[1..][i] == calls[i + 1]; }
      FallenBehindForever(AdapterNext(s, calls[0]), calls[1..], k);
    }
  }

  /**
    A publication that is refused can spoil later ones: once the regression store holds an unowned
    artifact's record in an earlier state than the catalog, no later publication that binds the
    artifact ever succeeds, whatever happens in between.
   */
  lemma SeededTooEarly(s: Stores, calls: seq<AdapterCall>, v: Version, lineage: Option<StoreError>, intentFails: bool,
      i: nat)
    requires Coupled(s) && forall j | 0 <= j < |calls| :: LineageAnswer(calls[j])
    requires i < |v.artifacts| && FallenBehind(s, ArtifactKey(v.scope, v.artifacts[i]))
    requires var n := AdapterRun(s, calls); VersionKey(v) !in n.regression.versions
    ensures PublishNext(AdapterRun(s, calls), v, lineage, intentFails).result.Err?
  {
    var k := ArtifactKey(v.scope, v.artifacts[i]);
    FallenBehindForever(s, calls, k);
    var n := AdapterRun(s, calls);
    PublishExactly(n, v, lineage, intentFails);
    assert !Publishable(n, v, v.artifacts[i]);
  }

  /** How it comes about: a version that binds an artifact still reserved is refused, then the upload completes. */
  lemma RefusedThenActivated(s: Stores, v: Version, b: Binding, receipt: Receipt, at: Time)
    requires Coupled(s) && VersionKey(v) !in s.regression.versions && v.artifacts == [b]
    requires var k := ArtifactKey(v.scope, b);
             && k in s.entries && s.entries[k].entry.metadata.scope == v.scope
             && s.entries[k].entry.metadata.state == Reserved && k !in s.regression.metadata
    ensures PublishNext(s, v, None, false).result == Err(BindingRefused)
    ensures var calls := [OnPublish(v, None, false), OnCatalog(DoActivate(v.scope, b.reference.artifactId, receipt, at))];
            FallenBehind(AdapterRun(s, calls), ArtifactKey(v.scope, b))
  {
    var k := ArtifactKey(v.scope, b);
    assert RowAgrees(k, RowOf(s, k));
    var e := s.entries[k].entry;
    var n := s.(regression := s.regression.(metadata := s.regression.metadata[k := e.metadata]));
    assert v.artifacts[1..] == [];
    assert SeedAll(s.entries, s.regression, v.scope, v.artifacts) == Reply(n.regression, Ok(()));
    assert !Bindable(n.regression, v, v.artifacts[0]);
    assert PublishNext(s, v, None, false) == After(n, Err(BindingRefused));
    var activate := OnCatalog(DoActivate(v.scope, b.reference.artifactId, receipt, at));
    var calls := [OnPublish(v, None, false), activate];
    assert calls[1..] == [activate] && [activate][1..] == [];
    assert AdapterRun(s, calls) == AdapterRun(n, [activate]) == AdapterNext(n, activate);
  }

  // ---------------------------------------------------------------- the adapters

  class MemoryStorage {
    var entries: Entries
    var regression: Regression

    ghost function State(): Stores reads this { Stores(entries, regression) }

    constructor ()
      ensures State() == Empty() && Coupled(State())
    {
      entries := map[];
      regression := Regression(map[], map[], map[], map[], map[]);
      new;
      StartsCoupled();
    }

    method PublishRecordedVersion(v: Version, lineage: Option<StoreError>, intentFails: bool)
        returns (r: Result<Published, StoreError>)
      requires Coupled(State()) && (lineage.Some? ==> lineage.value == Lineage || lineage.value == VersionConflict)
      modifies this
      ensures After(State(), r) == PublishNext(old(State()), v, lineage, intentFails)
      ensures Coupled(State())
    {
      PublishKeeps(State(), v, lineage, intentFails);
      var found := FindVersion(regression, v);
      if found.Err? { return Err(found.error); }
      if !found.value {
        var seeded := SeedBindings(v);
        if seeded.Err? { return Err(seeded.error); }
      }
      var reply := Publish(regression, v, lineage, intentFails);
      regression := reply.store;
      match reply.result {
        case Err(error) => r := Err(error);
        case Ok(published) => r := ClaimOwnerships(published);
      }
    }

    method SeedBindings(v: Version) returns (r: Result<(), StoreError>)
      modifies this`regression
      ensures Reply(regression, r) == SeedAll(entries, old(regression), v.scope, v.artifacts)
    {
      var i := 0;
      while i < |v.artifacts|
        invariant i <= |v.artifacts|
        invariant SeedAll(entries, regression, v.scope, v.artifacts[i..]) == SeedAll(entries, old(regression), v.scope, v.artifacts)
      {
        assert v.artifacts[i..][1..] == v.artifacts[i + 1..];
        var e := Find(entries, v.scope, v.artifacts[i].reference.artifactId);
        if e.None? { return Err(ArtifactNotCoordinated); }
        var seeded := Seed(regression, e.value.metadata);
        if seeded.Err? { return Err(seeded.error); }
        regression := seeded.value;
        i := i + 1;
      }
      r := Ok(());
    }

    method ClaimOwnerships(published: Published) returns (r: Result<Published, StoreError>)
      modifies this`entries
      ensures After(State(), r) == ClaimPublished(old(State()), published)
    {
      var os := published.ownerships;
      for i := 0 to |os|
        invariant forall j | 0 <= j < i :: !Disowned(entries, os[j])
      {
        var e := Find(entries, os[i].scope, os[i].artifactId);
        if e.Some? && e.value.ownership.Some? && !Exact(e, os[i]) {
          assert Disowned(entries, os[i]);
          return Err(OwnershipNotCoordinated);
        }
      }
      var i := 0;
      while i < |os|
        invariant i <= |os|
        invariant ClaimAll(entries, os[i..]) == ClaimAll(old(entries), os)
      {
        assert os[i..][1..] == os[i + 1..];
        var claimed := Claim(entries, os[i]);
        if claimed.result.Err? { return Err(CatalogRefused(claimed.result.error)); }
        entries := claimed.entries;
        i := i + 1;
      }
      r := Ok(published);
    }

    method RevokeContent(revocation: Revocation, ts: seq<Tombstone>, intentFails: bool) returns (r: Result<Revoked,
        StoreError>)
      requires Coupled(State())
      modifies this
      ensures After(State(), r) == RevokeNext(old(State()), revocation, ts, intentFails)
      ensures Coupled(State())
    {
      RevokeKeeps(State(), revocation, ts, intentFails);
      var content := FindContent(regression, revocation.scope, revocation.fixtureVersionId);
      if content.Err? { return Err(content.error); }
      if content.value.Some? {
        var exact := CheckOwnerships(Expected(content.value.value));
        if !exact { return Err(OwnershipNotCoordinated); }
      }
      var reply := Revoke(regression, revocation, ts, intentFails);
      regression := reply.store;
      match reply.result {
        case Err(error) => r := Err(error);
        case Ok(revoked) =>
          var error := BuryContent(revoked.version.scope, revoked.tombstones);
          r := if error.Some? then Err(error.value) else Ok(revoked);
      }
    }

    method CheckOwnerships(os: seq<Ownership>) returns (exact: bool)
      ensures exact == !AnyInexact(entries, os)
    {
      for i := 0 to |os|
        invariant forall j | 0 <= j < i :: Exact(Find(entries, os[j].scope, os[j].artifactId), os[j])
      {
        if !Exact(Find(entries, os[i].scope, os[i].artifactId), os[i]) { return false; }
      }
      exact := true;
    }

    method BuryContent(scope: Scope, ts: seq<Tombstone>) returns (error: Option<StoreError>)
      modifies this`entries
      ensures (entries, error) == BuryAll(old(entries), scope, ts)
    {
      var i := 0;
      while i < |ts|
        invariant i <= |ts|
        invariant BuryAll(entries, scope, ts[i..]) == BuryAll(old(entries), scope, ts)
      {
        assert ts[i..][1..] == ts[i + 1..];
        var buried := TombstoneOwned(entries, scope, ts[i]);
        if buried.result.Err? { return Some(CatalogRefused(buried.result.error)); }
        entries := buried.entries;
        i := i + 1;
      }
      error := None;
    }

    method ChangeCatalog(call: CatalogCall)
      requires Coupled(State())
      modifies this`entries
      ensures State() == AdapterNext(old(State()), OnCatalog(call)) && Coupled(State())
    {
      CatalogKeeps(State(), call);
      entries := CatalogNext(entries, call);
    }
  }
}
