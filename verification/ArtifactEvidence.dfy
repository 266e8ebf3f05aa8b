/**
  The artifact states of a comparison subject: each fixture's references are merged by artifact,
  every artifact gets an availability, everything not available is accounted for as an omission,
  and no artifact may belong to two fixtures.
 */
module ArtifactEvidence {
  import opened Prelude
  import J = Json
  import opened CanonicalJson

  type Text = J.Text

  /** `content` is the canonical text of the whole reference. */
  datatype Reference = Reference(artifactId: Text, content: Text)

  datatype CatalogState = Reserved | InCatalog | Tombstoned | Purged
  datatype CatalogView = CatalogView(content: Text, state: CatalogState)

  datatype Availability = Available | Unavailable | Revoked

  datatype ArtifactState = ArtifactState(artifact: Reference, availability: Availability)

  datatype Omission = ArtifactOmission(fixtureId: Text, artifactId: Text,
      reason: Availability) | ContentExcluded(fixtureId: Text)

  /**
    Where a fixture's content stands: `captured` are the artifacts of its interaction capture, none
    for an evidence-only fixture; `content` is the availability of that capture; `catalog` is absent
    when no artifact catalog is configured, and answers None for what is unknown or invalid.
   */
  datatype Source = Source(fixtureId: Text, references: seq<Reference>, captured: set<Text>, content: Availability,
                           catalog: Option<Text -> Option<CatalogView>>)

  datatype EvidenceError = ReferencesDisagree(artifactId: Text) | ArtifactOwned(artifactId: Text)

  // ---------------------------------------------------------------- merging references

  type Entries = seq<J.Entry<Reference>>

  predicate Agree(references: seq<Reference>) {
    forall i, j | 0 <= i < |references| && 0 <= j < |references| && references[i].artifactId == references[j].artifactId ::
      references[i] == references[j]
  }

  /** One entry per artifact, keyed by its identifier. */
  predicate Merged(entries: Entries, references: seq<Reference>) {
    && J.DistinctKeys(entries)
    && (forall i | 0 <= i < |entries| :: entries[i].key == entries[i].value.artifactId && entries[i].value in references)
    && (forall i | 0 <= i < |references| :: J.Entry(references[i].artifactId, references[i]) in entries)
  }

  method MergeReferences(references: seq<Reference>) returns (r: Result<Entries, EvidenceError>)
    ensures r.Ok? <==> Agree(references)
    ensures r.Ok? ==> Merged(r.value, references)
    ensures r.Err? ==> exists i, j :: 0 <= i < j < |references| && references[i].artifactId == references[j].artifactId
                                     && references[i] != references[j] && r.error == ReferencesDisagree(references[j].artifactId)
  {
    var entries: Entries := [];
    for n := 0 to |references|
      invariant Agree(references[..n])
      invariant Merged(entries, references[..n])
    {
      var reference := references[n];
      assert references[..n + 1] == references[..n] + [reference];
      var at := FindKey(entries, reference.artifactId);
      if at < |entries| {
        if entries[at].value != reference {
          var i := IndexOf(references[..n], entries[at].value);
          assert references[i] == entries[at].value;
          return Err(ReferencesDisagree(reference.artifactId));
        }
      } else {
        entries := entries + [J.Entry(reference.artifactId, reference)];
      }
      MergedAgree(entries, references[..n + 1]);
    }
    assert references[..|references|] == references;
    r := Ok(entries);
  }

  /** The position of a key, or the length. */
  function FindKey(entries: Entries, key: Text): (at: nat)
    ensures at <= |entries|
    ensures at < |entries| ==> entries[at].key == key
    ensures at == |entries| ==> forall i | 0 <= i < |entries| :: entries[i].key != key
  {
    if entries == [] then 0 else if entries[0].key == key then 0 else 1 + FindKey(entries[1..], key)
  }

  lemma MergedAgree(entries: Entries, references: seq<Reference>)
    requires Merged(entries, references)
    ensures Agree(references)
  {
    forall i, j | 0 <= i < |references| && 0 <= j < |references| && references[i].artifactId == references[j].artifactId
      ensures references[i] == references[j] {
      var k := IndexOf(entries, J.Entry(references[i].artifactId, references[i]));
      var l := IndexOf(entries, J.Entry(references[j].artifactId, references[j]));
    }
  }

  // ---------------------------------------------------------------- availability and omissions

  function AvailabilityOf(s: Source, reference: Reference): Availability {
    if reference.artifactId in s.captured && s.content != Available then s.content
    else if s.catalog.None? then Unavailable
    else
      match s.catalog.value(reference.artifactId)
      case None => Unavailable
      case Some(view) =>
        if view.content != reference.content then Unavailable
        else match view.state
             case InCatalog => Available
             case Tombstoned => Revoked
             case Purged => Revoked
             case Reserved => Unavailable
  }

  function StatesOf(s: Source, entries: Entries): (states: seq<ArtifactState>)
    ensures |states| == |entries|
    ensures forall i | 0 <= i < |states| :: states[i] == ArtifactState(entries[i].value, AvailabilityOf(s, entries[i].value))
  {
    seq(|entries|, i requires 0 <= i < |entries| => ArtifactState(entries[i].value, AvailabilityOf(s, entries[i].value)))
  }

  function OmissionsOf(fixtureId: Text, states: seq<ArtifactState>): seq<Omission> {
    if states == [] then []
    else
      var last := states[|states| - 1];
      OmissionsOf(fixtureId, states[..|states| - 1]) +
      if last.availability == Available then [] else [ArtifactOmission(fixtureId, last.artifact.artifactId, last.availability)]
  }

  /** The fixture's own capture holds the artifact and is not available: it decides, not the catalog. */
  predicate CaptureDecides(s: Source, reference: Reference) {
    reference.artifactId in s.captured && s.content in {Unavailable, Revoked}
  }

  /** The catalog is there and shows this very reference in one of the states. */
  predicate CatalogShows(s: Source, reference: Reference, states: set<CatalogState>) {
    && s.catalog.Some?
    && var view := s.catalog.value(reference.artifactId);
       view.Some? && view.value.content == reference.content && view.value.state in states
  }

  /** What the availability of an artifact has to be. */
  predicate Judged(s: Source, reference: Reference, a: Availability) {
    && (a == Available <==> !CaptureDecides(s, reference) && CatalogShows(s, reference, {InCatalog}))
    && (a == Revoked <==>
          if CaptureDecides(s, reference) then s.content == Revoked else CatalogShows(s, reference, {Tombstoned, Purged}))
    && (a == Unavailable <==>
          if CaptureDecides(s, reference) then s.content == Unavailable
          else !CatalogShows(s, reference, {InCatalog, Tombstoned, Purged}))
  }

  lemma AvailabilityIsJudged(s: Source, reference: Reference)
    ensures Judged(s, reference, AvailabilityOf(s, reference))
  {
  }

  predicate HasState(states: seq<ArtifactState>, reference: Reference) {
    exists j :: 0 <= j < |states| && states[j].artifact == reference
  }

  /** One state per artifact the fixture refers to, ordered, with the availability it has to have. */
  predicate Resolves(s: Source, states: seq<ArtifactState>, le: Comparator) {
    && (forall i, j | 0 <= i < j < |states| :: le(states[i].artifact.artifactId, states[j].artifact.artifactId))
    && (forall i, j | 0 <= i < j < |states| :: states[i].artifact.artifactId != states[j].artifact.artifactId)
    && (forall i | 0 <= i < |states| :: states[i].artifact in s.references && Judged(s, states[i].artifact, states[i].availability))
    && (forall i | 0 <= i < |s.references| :: HasState(states, s.references[i]))
  }

  lemma SortedResolves(s: Source, entries: Entries, le: Comparator)
    requires TotalPreorder(le) && Merged(entries, s.references)
    ensures Resolves(s, StatesOf(s, Sort(entries, le)), le)
  {
    SortFacts(entries, le);
    var sorted := Sort(entries, le);
    var states := StatesOf(s, sorted);
    forall i | 0 <= i < |sorted| ensures sorted[i].key == sorted[i].value.artifactId && sorted[i].value in s.references {
      assert sorted[i] in entries;
      var k := IndexOf(entries, sorted[i]);
    }
    forall i | 0 <= i < |states| ensures Judged(s, states[i].artifact, states[i].availability) {
      AvailabilityIsJudged(s, sorted[i].value);
    }
    forall i | 0 <= i < |s.references| ensures HasState(states, s.references[i]) {
      assert J.Entry(s.references[i].artifactId, s.references[i]) in sorted;
      var k := IndexOf(sorted, J.Entry(s.references[i].artifactId, s.references[i]));
      assert states[k].artifact == s.references[i];
    }
  }

  /** `artifacts`: the states of one fixture, and its omissions behind those there already. */
  method ResolveArtifacts(s: Source, omissions: seq<Omission>, le: Comparator)
      returns (r: Result<(seq<ArtifactState>, seq<Omission>), EvidenceError>)
    requires TotalPreorder(le)
    ensures r.Ok? <==> Agree(s.references)
    ensures r.Ok? ==> Resolves(s, r.value.0, le) && r.value.1 == omissions + OmissionsOf(s.fixtureId, r.value.0)
    ensures r.Err? ==> r.error.ReferencesDisagree?
  {
    var merged := MergeReferences(s.references);
    if merged.Err? { return Err(merged.error); }
    var sorted := Sort(merged.value, le);
    var states: seq<ArtifactState> := [];
    var all := omissions;
    for i := 0 to |sorted|
      invariant states == StatesOf(s, sorted[..i])
      invariant all == omissions + OmissionsOf(s.fixtureId, states)
    {
      var availability := AvailabilityOf(s, sorted[i].value);
      var next := states + [ArtifactState(sorted[i].value, availability)];
      assert next[..|next| - 1] == states;
      states := next;
      if availability != Available { all := all + [ArtifactOmission(s.fixtureId, sorted[i].value.artifactId, availability)]; }
    }
    assert sorted[..|sorted|] == sorted;
    SortedResolves(s, merged.value, le);
    r := Ok((states, all));
  }

  // ---------------------------------------------------------------- a whole subject

  datatype Resolved = Resolved(fixtureId: Text, states: seq<ArtifactState>)

  /** Everything a subject omits, in the order it is found. */
  function AllOmissions(fixtures: seq<Resolved>): seq<Omission> {
    if fixtures == [] then []
    else
      var last := fixtures[|fixtures| - 1];
      AllOmissions(fixtures[..|fixtures| - 1]) + OmissionsOf(last.fixtureId, last.states) + [ContentExcluded(last.fixtureId)]
  }

  /** No artifact belongs to two of the fixtures. */
  predicate Disjoint(fixtures: seq<Resolved>) {
    forall f, g, i, j | 0 <= f < g < |fixtures| && 0 <= i < |fixtures[f].states| && 0 <= j < |fixtures[g].states| ::
      fixtures[f].states[i].artifact.artifactId != fixtures[g].states[j].artifact.artifactId
  }

  predicate Owners(owners: set<Text>, fixtures: seq<Resolved>) {
    && (forall f, i | 0 <= f < |fixtures| && 0 <= i < |fixtures[f].states| :: fixtures[f].states[i].artifact.artifactId in owners)
    && (forall id | id in owners ::
          exists f, i :: 0 <= f < |fixtures| && 0 <= i < |fixtures[f].states| && fixtures[f].states[i].artifact.artifactId == id)
  }

  /** What the fixture loop has established after its first fixtures. */
  predicate SoFar(sources: seq<Source>, fixtures: seq<Resolved>, omissions: seq<Omission>, owners: set<Text>,
      le: Comparator) {
    && |fixtures| <= |sources|
    && omissions == AllOmissions(fixtures)
    && (forall f | 0 <= f < |fixtures| ::
          Agree(sources[f].references) && fixtures[f].fixtureId == sources[f].fixtureId && Resolves(sources[f], fixtures[f].states, le))
    && Owners(owners, fixtures) && Disjoint(fixtures)
  }

  function Ids(states: seq<ArtifactState>): set<Text> { set i | 0 <= i < |states| :: states[i].artifact.artifactId }

  lemma NextFixture(sources: seq<Source>, fixtures: seq<Resolved>, omissions: seq<Omission>, owners: set<Text>,
      states: seq<ArtifactState>, le: Comparator)
    requires SoFar(sources, fixtures, omissions, owners, le) && |fixtures| < |sources|
    requires var s := sources[|fixtures|]; Agree(s.references) && Resolves(s, states, le)
    requires forall j | 0 <= j < |states| :: states[j].artifact.artifactId !in owners
    ensures var s := sources[|fixtures|];
            SoFar(sources, fixtures + [Resolved(s.fixtureId, states)], omissions + OmissionsOf(s.fixtureId, states) + [ContentExcluded(s.fixtureId)],
                  owners + Ids(states), le)
  {
    var n := |fixtures|;
    var next := fixtures + [Resolved(sources[n].fixtureId, states)];
    assert next[..n] == fixtures;
    NextOwners(fixtures, owners, next[n]);
    NextDisjoint(fixtures, owners, next[n]);
  }

  lemma NextDisjoint(fixtures: seq<Resolved>, owners: set<Text>, fixture: Resolved)
    requires Owners(owners, fixtures) && Disjoint(fixtures)
    requires forall j | 0 <= j < |fixture.states| :: fixture.states[j].artifact.artifactId !in owners
    ensures Disjoint(fixtures + [fixture])
  {
    var next := fixtures + [fixture];
    forall f, g, i, j | 0 <= f < g < |next| && 0 <= i < |next[f].states| && 0 <= j < |next[g].states|
      ensures next[f].states[i].artifact.artifactId != next[g].states[j].artifact.artifactId {
      if g == |fixtures| { assert fixtures[f].states[i].artifact.artifactId in owners; }
    }
  }

  lemma NextOwners(fixtures: seq<Resolved>, owners: set<Text>, fixture: Resolved)
    requires Owners(owners, fixtures)
    ensures Owners(owners + Ids(fixture.states), fixtures + [fixture])
  {
    var next, all := fixtures + [fixture], owners + Ids(fixture.states);
    forall f, i | 0 <= f < |next| && 0 <= i < |next[f].states| ensures next[f].states[i].artifact.artifactId in all {
      if f < |fixtures| { assert fixtures[f].states[i].artifact.artifactId in owners; }
    }
    forall id | id in all ensures exists f, i :: 0 <= f < |next| && 0 <= i < |next[f].states| && next[f].states[i].artifact.artifactId == id {
      if id in owners {
        var f, i :| 0 <= f < |fixtures| && 0 <= i < |fixtures[f].states| && fixtures[f].states[i].artifact.artifactId == id;
        assert next[f].states[i].artifact.artifactId == id;
      } else {
        var i :| 0 <= i < |fixture.states| && fixture.states[i].artifact.artifactId == id;
        assert next[|fixtures|].states[i].artifact.artifactId == id;
      }
    }
  }

  /**
    The fixture loop of `resolve`, as far as artifacts and omissions go.  It succeeds exactly when
    the references of each fixture agree and no two fixtures refer to the same artifact.
   */
  method ResolveSubject(sources: seq<Source>, le: Comparator) returns (r: Result<(seq<Resolved>, seq<Omission>),
      EvidenceError>)
    requires TotalPreorder(le)
    ensures r.Ok? ==> |r.value.0| == |sources| && Subject(sources, r.value.0, r.value.1, le)
    ensures r.Ok? <==> (forall f | 0 <= f < |sources| :: Agree(sources[f].references)) && SourcesDisjoint(sources)
  {
    var fixtures: seq<Resolved> := [];
    var omissions: seq<Omission> := [];
    var owners: set<Text> := {};
    for n := 0 to |sources|
      invariant |fixtures| == n && SoFar(sources, fixtures, omissions, owners, le)
    {
      var resolved := ResolveArtifacts(sources[n], omissions, le);
      if resolved.Err? { return Err(resolved.error); }
      var states := resolved.value.0;
      var clash := FirstOwned(states, owners);
      if clash < |states| {
        SharedArtifact(sources, fixtures, owners, n, states, clash, le);
        return Err(ArtifactOwned(states[clash].artifact.artifactId));
      }
      NextFixture(sources, fixtures, omissions, owners, states, le);
      owners := owners + Ids(states);
      omissions := resolved.value.1 + [ContentExcluded(sources[n].fixtureId)];
      fixtures := fixtures + [Resolved(sources[n].fixtureId, states)];
    }
    DisjointSources(sources, fixtures, le);
    r := Ok((fixtures, omissions));
  }

  /** A resolved subject: every fixture's states, owned by it alone, and every omission. */
  predicate Subject(sources: seq<Source>, fixtures: seq<Resolved>, omissions: seq<Omission>, le: Comparator)
    requires |fixtures| == |sources|
  {
    && (forall f | 0 <= f < |sources| :: fixtures[f].fixtureId == sources[f].fixtureId && Resolves(sources[f], fixtures[f].states, le))
    && Disjoint(fixtures)
    && omissions == AllOmissions(fixtures)
  }

  /** The owner check: the first artifact of a fixture that an earlier one already owns. */
  method FirstOwned(states: seq<ArtifactState>, owners: set<Text>) returns (i: nat)
    ensures i <= |states|
    ensures i < |states| ==> states[i].artifact.artifactId in owners
    ensures i == |states| ==> forall j | 0 <= j < |states| :: states[j].artifact.artifactId !in owners
  {
    i := 0;
    while i < |states| && states[i].artifact.artifactId !in owners
      invariant i <= |states|
      invariant forall j | 0 <= j < i :: states[j].artifact.artifactId !in owners
    {
      i := i + 1;
    }
  }

  predicate SourcesDisjoint(sources: seq<Source>) {
    forall f, g, i, j | 0 <= f < g < |sources| && 0 <= i < |sources[f].references| && 0 <= j < |sources[g].references| ::
      sources[f].references[i].artifactId != sources[g].references[j].artifactId
  }

  lemma SharedArtifact(sources: seq<Source>, fixtures: seq<Resolved>, owners: set<Text>, n: nat,
      states: seq<ArtifactState>, clash: nat, le: Comparator)
    requires n == |fixtures| < |sources| && Owners(owners, fixtures) && clash < |states| && states[clash].artifact.artifactId in owners
    requires forall f | 0 <= f < n :: Resolves(sources[f], fixtures[f].states, le)
    requires Resolves(sources[n], states, le)
    ensures !SourcesDisjoint(sources)
  {
    var f, i :| 0 <= f < |fixtures| && 0 <= i < |fixtures[f].states|
                && fixtures[f].states[i].artifact.artifactId == states[clash].artifact.artifactId;
    assert Resolves(sources[f], fixtures[f].states, le);
    var a := IndexOf(sources[f].references, fixtures[f].states[i].artifact);
    var b := IndexOf(sources[n].references, states[clash].artifact);
    assert sources[f].references[a].artifactId == sources[n].references[b].artifactId;
  }

  lemma DisjointSources(sources: seq<Source>, fixtures: seq<Resolved>, le: Comparator)
    requires |fixtures| == |sources| && Disjoint(fixtures)
    requires forall f | 0 <= f < |sources| :: Resolves(sources[f], fixtures[f].states, le)
    ensures SourcesDisjoint(sources)
  {
    forall f, g, i, j | 0 <= f < g < |sources| && 0 <= i < |sources[f].references| && 0 <= j < |sources[g].references|
      ensures sources[f].references[i].artifactId != sources[g].references[j].artifactId {
      var x, y := sources[f].references[i], sources[g].references[j];
      assert Resolves(sources[f], fixtures[f].states, le) && Resolves(sources[g], fixtures[g].states, le);
      assert HasState(fixtures[f].states, x) && HasState(fixtures[g].states, y);
      var a :| 0 <= a < |fixtures[f].states| && fixtures[f].states[a].artifact == x;
      var b :| 0 <= b < |fixtures[g].states| && fixtures[g].states[b].artifact == y;
      assert fixtures[f].states[a].artifact == x && fixtures[g].states[b].artifact == y;
    }
  }

  // ---------------------------------------------------------------- the accounts balance

  function NotAvailable(states: seq<ArtifactState>): nat {
    if states == [] then 0
    else NotAvailable(states[..|states| - 1]) + if states[|states| - 1].availability == Available then 0 else 1
  }

  function AllNotAvailable(fixtures: seq<Resolved>): nat {
    if fixtures == [] then 0 else AllNotAvailable(fixtures[..|fixtures| - 1]) + NotAvailable(fixtures[|fixtures| - 1].states)
  }

  lemma {:induction false} OmissionsLength(fixtureId: Text, states: seq<ArtifactState>)
    ensures |OmissionsOf(fixtureId, states)| == NotAvailable(states)
  {
    if states != [] { OmissionsLength(fixtureId, states[..|states| - 1]); }
  }

  /** There are as many omissions as fixtures and states that are not available, together. */
  lemma {:induction false} OmissionsBalance(fixtures: seq<Resolved>)
    ensures |AllOmissions(fixtures)| == |fixtures| + AllNotAvailable(fixtures)
  {
    if fixtures != [] {
      var last := fixtures[|fixtures| - 1];
      OmissionsBalance(fixtures[..|fixtures| - 1]);
      OmissionsLength(last.fixtureId, last.states);
    }
  }

  predicate DistinctStates(states: seq<ArtifactState>) {
    forall i, j | 0 <= i < j < |states| :: states[i].artifact.artifactId != states[j].artifact.artifactId
  }

  predicate Omits(states: seq<ArtifactState>, artifactId: Text, reason: Availability) {
    exists i :: 0 <= i < |states| && states[i].artifact.artifactId == artifactId && states[i].availability == reason
  }

  /** How often an omission occurs. */
  function Times(omissions: seq<Omission>, o: Omission): nat {
    if omissions == [] then 0 else Times(omissions[..|omissions| - 1], o) + if omissions[|omissions| - 1] == o then 1 else 0
  }

  lemma {:induction false} TimesConcat(a: seq<Omission>, b: seq<Omission>, o: Omission)
    ensures Times(a + b, o) == Times(a, o) + Times(b, o)
  {
    if b == [] {
      assert a + b == a;
    } else {
      var n := |b| - 1;
      assert (a + b)[..|a + b| - 1] == a + b[..n];
      TimesConcat(a, b[..n], o);
    }
  }

  lemma TimesOne(x: Omission, o: Omission)
    ensures Times([x], o) == if x == o then 1 else 0
  {
    assert [x][..0] == [];
  }

  lemma {:induction false} OmittedOnce(fixtureId: Text, states: seq<ArtifactState>, artifactId: Text, reason: Availability)
    requires DistinctStates(states) && reason != Available
    ensures Times(OmissionsOf(fixtureId, states), ArtifactOmission(fixtureId, artifactId, reason)) ==
            if Omits(states, artifactId, reason) then 1 else 0
  {
    if states != [] {
      var n := |states| - 1;
      var o := ArtifactOmission(fixtureId, artifactId, reason);
      OmittedOnce(fixtureId, states[..n], artifactId, reason);
      LastOmits(states, artifactId, reason);
      assert OmissionsOf(fixtureId, states[..n]) + [] == OmissionsOf(fixtureId, states[..n]);
      if states[n].availability != Available {
        var last := ArtifactOmission(fixtureId, states[n].artifact.artifactId, states[n].availability);
        TimesConcat(OmissionsOf(fixtureId, states[..n]), [last], o);
        TimesOne(last, o);
      }
    }
  }

  lemma LastOmits(states: seq<ArtifactState>, artifactId: Text, reason: Availability)
    requires states != [] && DistinctStates(states)
    ensures var n := |states| - 1;
            var last := states[n].artifact.artifactId == artifactId && states[n].availability == reason;
            && (Omits(states, artifactId, reason) <==> Omits(states[..n], artifactId, reason) || last)
            && !(Omits(states[..n], artifactId, reason) && last)
  {
    var n := |states| - 1;
    if Omits(states[..n], artifactId, reason) {
      var i :| 0 <= i < n && states[..n][i].artifact.artifactId == artifactId && states[..n][i].availability == reason;
      assert states[i].artifact.artifactId == artifactId;
    }
    if Omits(states, artifactId, reason) {
      var i :| 0 <= i < |states| && states[i].artifact.artifactId == artifactId && states[i].availability == reason;
      assert i < n ==> states[..n][i] == states[i];
    }
  }

  lemma {:induction false} OthersDoNotOmit(fixtureId: Text, other: Text, states: seq<ArtifactState>, artifactId: Text,
      reason: Availability)
    requires other != fixtureId
    ensures Times(OmissionsOf(other, states), ArtifactOmission(fixtureId, artifactId, reason)) == 0
  {
    if states != [] {
      var n := |states| - 1;
      var o := ArtifactOmission(fixtureId, artifactId, reason);
      OthersDoNotOmit(fixtureId, other, states[..n], artifactId, reason);
      assert OmissionsOf(other, states[..n]) + [] == OmissionsOf(other, states[..n]);
      var last := ArtifactOmission(other, states[n].artifact.artifactId, states[n].availability);
      TimesConcat(OmissionsOf(other, states[..n]), [last], o);
      TimesOne(last, o);
    }
  }

  predicate DistinctFixtures(fixtures: seq<Resolved>) {
    forall f, g | 0 <= f < g < |fixtures| :: fixtures[f].fixtureId != fixtures[g].fixtureId
  }

  lemma LastFixture(fixtures: seq<Resolved>, o: Omission)
    requires fixtures != [] && o.ArtifactOmission?
    ensures var n := |fixtures| - 1;
            Times(AllOmissions(fixtures), o) ==
            Times(AllOmissions(fixtures[..n]), o) + Times(OmissionsOf(fixtures[n].fixtureId, fixtures[n].states), o)
  {
    var n := |fixtures| - 1;
    var before, own := AllOmissions(fixtures[..n]), OmissionsOf(fixtures[n].fixtureId, fixtures[n].states);
    TimesConcat(before + own, [ContentExcluded(fixtures[n].fixtureId)], o);
    TimesConcat(before, own, o);
    TimesOne(ContentExcluded(fixtures[n].fixtureId), o);
  }

  /**
    Every state that is not available has exactly one omission, under its fixture and with the
    matching reason, and there is no omission of an artifact beyond these.
   */
  lemma {:induction false} OmittedExactly(fixtures: seq<Resolved>, f: nat, artifactId: Text, reason: Availability)
    requires f < |fixtures| && DistinctFixtures(fixtures) && reason != Available
    requires DistinctStates(fixtures[f].states)
    ensures Times(AllOmissions(fixtures), ArtifactOmission(fixtures[f].fixtureId, artifactId, reason)) ==
            if Omits(fixtures[f].states, artifactId, reason) then 1 else 0
  {
    var n := |fixtures| - 1;
    LastFixture(fixtures, ArtifactOmission(fixtures[f].fixtureId, artifactId, reason));
    if f == n {
      NotYetOmitted(fixtures[..n], fixtures[f].fixtureId, artifactId, reason);
      OmittedOnce(fixtures[n].fixtureId, fixtures[n].states, artifactId, reason);
    } else {
      OmittedExactly(fixtures[..n], f, artifactId, reason);
      OthersDoNotOmit(fixtures[f].fixtureId, fixtures[n].fixtureId, fixtures[n].states, artifactId, reason);
    }
  }

  lemma {:induction false} NotYetOmitted(fixtures: seq<Resolved>, fixtureId: Text, artifactId: Text, reason: Availability)
    requires forall f | 0 <= f < |fixtures| :: fixtures[f].fixtureId != fixtureId
    ensures Times(AllOmissions(fixtures), ArtifactOmission(fixtureId, artifactId, reason)) == 0
  {
    if fixtures != [] {
      var n := |fixtures| - 1;
      LastFixture(fixtures, ArtifactOmission(fixtureId, artifactId, reason));
      NotYetOmitted(fixtures[..n], fixtureId, artifactId, reason);
      OthersDoNotOmit(fixtureId, fixtures[n].fixtureId, fixtures[n].states, artifactId, reason);
    }
  }

  lemma {:induction false} NotExcludedByStates(fixtureId: Text, other: Text, states: seq<ArtifactState>)
    ensures Times(OmissionsOf(other, states), ContentExcluded(fixtureId)) == 0
  {
    if states != [] {
      var n := |states| - 1;
      NotExcludedByStates(fixtureId, other, states[..n]);
      assert OmissionsOf(other, states[..n]) + [] == OmissionsOf(other, states[..n]);
      var last := ArtifactOmission(other, states[n].artifact.artifactId, states[n].availability);
      TimesConcat(OmissionsOf(other, states[..n]), [last], ContentExcluded(fixtureId));
      TimesOne(last, ContentExcluded(fixtureId));
    }
  }

  /** Every fixture's classified content is excluded once. */
  lemma {:induction false} ExcludedOnce(fixtures: seq<Resolved>, fixtureId: Text)
    requires DistinctFixtures(fixtures)
    ensures Times(AllOmissions(fixtures), ContentExcluded(fixtureId)) ==
            if exists f :: 0 <= f < |fixtures| && fixtures[f].fixtureId == fixtureId then 1 else 0
  {
    if fixtures != [] {
      var n := |fixtures| - 1;
      var last := fixtures[n];
      var o := ContentExcluded(fixtureId);
      ExcludedOnce(fixtures[..n], fixtureId);
      NotExcludedByStates(fixtureId, last.fixtureId, last.states);
      var before, own := AllOmissions(fixtures[..n]), OmissionsOf(last.fixtureId, last.states);
      TimesConcat(before + own, [ContentExcluded(last.fixtureId)], o);
      TimesConcat(before, own, o);
      TimesOne(ContentExcluded(last.fixtureId), o);
      assert (exists f :: 0 <= f < |fixtures| && fixtures[f].fixtureId == fixtureId) <==>
             (exists f :: 0 <= f < n && fixtures[..n][f].fixtureId == fixtureId) || last.fixtureId == fixtureId;
    }
  }
}
