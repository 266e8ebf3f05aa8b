/**
  The two stores as the use cases see them: a class whose methods are the atomic operations, and
  `Await`, during which any number of other processes take any number of steps.
 */
module Stores {
  import opened Prelude
  import J = Json
  import opened ArtifactContract
  import opened Envelope
  import opened Catalog
  import opened Protocol
  import opened ProtocolSafety
  import opened Lifecycle

  class Backend {
    const codec: Codec
    var world: World

    ghost predicate Valid() reads this { Lawful(codec) && Inv(codec, world) }

    constructor (codec: Codec, now: Time)
      requires Lawful(codec)
      ensures Valid() && this.codec == codec && world == Start(now)
    {
      this.codec := codec;
      world := Start(now);
      StartIsSound(codec, now);
    }

    /** The caller is suspended while the others run. */
    method Await(others: seq<Step>)
      requires Valid()
      modifies this
      ensures Valid() && world == Run(codec, old(world), others) && Evolves(old(world), world)
    {
      RunKeeps(codec, world, others);
      var i := 0;
      while i < |others|
        invariant i <= |others|
        invariant Run(codec, world, others[i..]) == Run(codec, old(world), others)
      {
        assert others[i..][1..] == others[i + 1..];
        world := Next(codec, world, others[i]);
        i := i + 1;
      }
    }

    method Find(scope: Scope, artifactId: Id) returns (r: Option<CatalogEntry>)
      ensures r == Catalog.Find(world.entries, scope, artifactId)
    {
      r := Catalog.Find(world.entries, scope, artifactId);
    }

    method Reserve(candidate: CatalogEntry) returns (r: Result<(bool, CatalogEntry), Error>)
      modifies this
      ensures world == Insert(old(world), candidate) && r == Catalog.Reserve(old(world).entries, candidate).result
    {
      r := Catalog.Reserve(world.entries, candidate).result;
      world := Insert(world, candidate);
    }

    method Activate(scope: Scope, artifactId: Id, receipt: Receipt, at: Time) returns (r: Result<CatalogEntry, Error>)
      modifies this
      ensures world == old(world).(entries := Catalog.Activate(old(world).entries, scope, artifactId, receipt, at).entries)
      ensures r == Catalog.Activate(old(world).entries, scope, artifactId, receipt, at).result
    {
      var outcome := Catalog.Activate(world.entries, scope, artifactId, receipt, at);
      world := world.(entries := outcome.entries);
      r := outcome.result;
    }

    method Tombstone(scope: Scope, t: Tombstone) returns (r: Result<(bool, CatalogEntry), Error>)
      modifies this
      ensures world == old(world).(entries := TombstoneEntry(old(world).entries, scope, t).entries)
      ensures r == TombstoneEntry(old(world).entries, scope, t).result
    {
      var outcome := TombstoneEntry(world.entries, scope, t);
      world := world.(entries := outcome.entries);
      r := outcome.result;
    }

    method RecordPurge(scope: Scope, receipt: PurgeReceipt) returns (r: Result<CatalogEntry, Error>)
      modifies this
      ensures world == old(world).(entries := Catalog.RecordPurge(old(world).entries, scope, receipt).entries)
      ensures r == Catalog.RecordPurge(old(world).entries, scope, receipt).result
    {
      var outcome := Catalog.RecordPurge(world.entries, scope, receipt);
      world := world.(entries := outcome.entries);
      r := outcome.result;
    }

    method Get(key: ObjectKey) returns (r: Option<Bytes>)
      ensures r == Lookup(world.objects, key)
    {
      r := Lookup(world.objects, key);
    }

    /**
      Whatever was stored stays as it was; the key is bound to `bytes` only if it was free.  The
      caller learns the receipt of what the key holds now, whoever put it there.
     */
    method PutIfAbsent(key: ObjectKey, bytes: Bytes) returns (stored: Receipt)
      modifies this
      ensures world == old(world).(objects := world.objects)
      ensures world.objects.Keys == old(world).objects.Keys + {key}
      ensures forall k | k in old(world).objects :: world.objects[k] == old(world).objects[k]
      ensures key !in old(world).objects ==> world.objects[key] == bytes
      ensures stored == codec.receipt(world.objects[key])
    {
      if key !in world.objects {
        world := world.(objects := world.objects[key := bytes]);
      }
      stored := codec.receipt(world.objects[key]);
    }

    method Delete(key: ObjectKey) returns (deleted: bool)
      modifies this
      ensures world == old(world).(objects := old(world).objects - {key}) && deleted == (key in old(world).objects)
    {
      deleted := key in world.objects;
      world := world.(objects := world.objects - {key});
    }
  }

  /** The contract of the store leaves the protocol's put as the only possible effect. */
  lemma PutDetermined(w: World, v: World, key: ObjectKey, bytes: Bytes)
    requires v == w.(objects := v.objects) && v.objects.Keys == w.objects.Keys + {key}
    requires forall k | k in w.objects :: v.objects[k] == w.objects[k]
    requires key !in w.objects ==> v.objects[key] == bytes
    ensures v == PutIfAbsent(w, key, bytes)
  {
    assert v.objects == PutIfAbsent(w, key, bytes).objects;
  }

  // ---------------------------------------------------------------- a suspended process is untouched

  predicate Moves(step: Step, p: nat) {
    match step
    case Tick(_) | TombstoneStep(_, _) | ClaimStep(_) | RevokeStep(_, _) => false
    case _ => step.p == p
  }

  predicate Others(steps: seq<Step>, p: nat) { forall i | 0 <= i < |steps| :: !Moves(steps[i], p) }

  lemma UpdatesCommute(m: map<nat, Process>, p: nat, q: Process, r: nat)
    requires p != r
    ensures forall x {:trigger m[r := x]} {:trigger m[p := q][r := x]} :: m[p := q][r := x] == m[r := x][p := q]
    ensures m[p := q] - {r} == (m - {r})[p := q]
  {
  }

  /** `step` does the same whether or not another process `p` waits beside it. */
  ghost predicate Ignores(c: Codec, w: World, step: Step, p: nat, q: Process) {
    Next(c, Become(w, p, q), step) == Become(Next(c, w, step), p, q) && p !in Next(c, w, step).processes
  }

  lemma WriterIgnores(c: Codec, w: World, step: Step, p: nat, q: Process)
    requires p !in w.processes && !Moves(step, p)
    requires step.ReserveFind? || step.ReserveCommit? || step.UploadFind? || step.UploadActivate?
    ensures Ignores(c, w, step, p, q)
  {
    UpdatesCommute(w.processes, p, q, step.p);
  }

  lemma PutIgnores(c: Codec, w: World, step: Step, p: nat, q: Process)
    requires p !in w.processes && !Moves(step, p) && step.UploadPut?
    ensures Ignores(c, w, step, p, q)
  {
    UpdatesCommute(w.processes, p, q, step.p);
  }

  lemma ReconcileIgnores(c: Codec, w: World, step: Step, p: nat, q: Process)
    requires p !in w.processes && !Moves(step, p)
    requires step.ReconcileList? || step.ReconcileGet? || step.ReconcileActivate? || step.Crash?
    ensures Ignores(c, w, step, p, q)
  {
    UpdatesCommute(w.processes, p, q, step.p);
  }

  lemma PurgeIgnores(c: Codec, w: World, step: Step, p: nat, q: Process)
    requires p !in w.processes && !Moves(step, p)
    requires step.PurgeFind? || step.PurgeDelete? || step.PurgeRecord?
    ensures Ignores(c, w, step, p, q)
  {
    UpdatesCommute(w.processes, p, q, step.p);
  }

  lemma StepIgnores(c: Codec, w: World, step: Step, p: nat, q: Process)
    requires p !in w.processes && !Moves(step, p)
    ensures Ignores(c, w, step, p, q)
  {
    match step {
      case ReserveFind(_, _) | ReserveCommit(_, _, _, _, _) | UploadFind(_, _, _, _) | UploadActivate(_) => WriterIgnores(c, w, step, p, q);
      case UploadPut(_, _) => PutIgnores(c, w, step, p, q);
      case ReconcileList(_, _, _, _, _) | ReconcileGet(_) | ReconcileActivate(_) | Crash(_) => ReconcileIgnores(c, w, step, p, q);
      case PurgeFind(_, _, _) | PurgeDelete(_) | PurgeRecord(_, _, _) => PurgeIgnores(c, w, step, p, q);
      case Tick(_) | TombstoneStep(_, _) | ClaimStep(_) | RevokeStep(_, _) =>
    }
  }

  /** A process that waits is neither changed by the others nor changes anything for them. */
  lemma {:induction false} RunIgnores(c: Codec, w: World, others: seq<Step>, p: nat, q: Process)
    requires p !in w.processes && Others(others, p)
    ensures Run(c, Become(w, p, q), others) == Become(Run(c, w, others), p, q)
    ensures p !in Run(c, w, others).processes
    decreases |others|
  {
    if others != [] {
      assert !Moves(others[0], p);
      StepIgnores(c, w, others[0], p, q);
      assert Others(others[1..], p) by {
        forall i | 0 <= i < |others[1..]| ensures !Moves(others[1..][i], p) { assert others[1..][i] == others[i + 1]; }
      }
      RunIgnores(c, Next(c, w, others[0]), others[1..], p, q);
    }
  }

  lemma BecomeFinish(w: World, p: nat, q: Process)
    requires p !in w.processes
    ensures Finish(Become(w, p, q), p) == w
  {
    assert w.processes[p := q] - {p} == w.processes;
  }
}
