# ProofStack: a verified model

ProofStack keeps encrypted artifacts in a catalog and an object store, binds them to fixture
versions, and compares replays on the evidence they leave. This project models the parts of it
where a mistake would not show in any single function, and proves what they promise.

**The artifact lifecycle** (`Catalog`, `CatalogContract`, `Envelope`, `Protocol`,
`ProtocolSafety`, `ProtocolContract`, `Lifecycle`). Reserve, upload, reconcile, tombstone, purge,
claim and revoke run as processes against a catalog with atomic operations and an object store with
put-if-absent, get and delete. A schedule is any list of steps of any number of processes; a process
may crash at any `await`. One invariant and one
relation between the store before and after carry every result. `PurgeExactly` is the central one:
it says exactly when a recorded purge means that the object is absent, because it does not always:
an upload that found its artifact before the tombstone may put its object after the delete.

**The use cases** (`Stores`, `UseCases`, `ArtifactService`, `Maintenance`, `PolicyReader`) are
methods over the shared stores, with an arbitrary schedule of the others at every `await`. Upload,
purge and reserve are proved to be exactly their steps of the protocol. The policy reader is proved
to answer exactly what its two catalog records and the clock decide, whatever the object store does
between.

**The coordinated memory adapters** (`AsyncMutex`, `RegressionStore`, `Coordination`,
`AdapterContract`, `LockedAdapters`): a promise-chain mutex whose runs are serial in call order, two
stores that never disagree about ownership and revocation, the exact answer of every publication and
revocation, and the proof that calls made of many small steps are atomic under every interleaving
the mutex allows.

**The comparison evidence resolver** (`Json`, `CanonicalJson`, `UsageProjection`, `TraceStructure`,
`SourceCutoff`, `VerdictTally`, `ArtifactEvidence`): the serializer behind its equality tests, and
its tallies against plain mathematical definitions.

**Encodings and small machines** (`Base64Url`, `CredentialScan`, `WorkerStream`, `ReplayTarget`).

## What the code does that its promises do not say

- A purged artifact's object can be stored, and then stays (`PurgedButStored`, `StrandedExactly`).
- A fixture publication refused because an artifact is still reserved makes every later publication
  that binds the artifact fail (`SeededTooEarly`).
- The canonical text of a value depends on the order of properties exactly when an object within it
  has two keys that the locale comparator ties (`OrderInsensitiveExactly`), and it does not tell a
  non-finite number from null.
- The source cutoff's rounding is not a ceiling for most times before 1970 (`CeilingExactly`).
- The replay target asks the tool first if it is given a model result before its request has left
  (`OnScriptExactly`).

## Assumptions

- The digest has no collisions, the AEAD opens exactly what it sealed, and unwrapping undoes
  wrapping (`Envelope.Ideal`; `IdealIsConsistent` exhibits primitives that satisfy it).
- An object key is generated for one reservation only. Identifiers hold no colon, so the catalog's
  key `tenant:artifact` is a pair.
- One clock that never runs backwards serves all processes of the lifecycle, and a reservation may
  have read it at any earlier time; the policy reader's own clock is arbitrary. Timestamps are their
  order keys, in milliseconds for the maintenance passes.
- `localeCompare` is a parameter. Where a result needs it to be total, or to tie no two keys, the
  result says so.

## Model

| member | source | states |
|---|---|---|
| Json.StringRoundTrip | apps/api/src/repository-comparison-evidence-resolver.ts:111 | a parser of RFC 8259 section 7 string literals reads every quoted string back, whatever follows it |
| Json.RoundTrip | apps/api/src/repository-comparison-evidence-resolver.ts:109-117 | a parser reads every finite value, undefined included, back from its printed text, with the rest of the input untouched |
| Json.PrintInjective | apps/api/src/repository-comparison-evidence-resolver.ts:89-91 | equal printed text means equal finite values |
| Json.LiteralsSpelled | apps/api/src/repository-comparison-evidence-resolver.ts:109-112 | the words for undefined, null, non-finite numbers and booleans, spelled out |
| Json.ArraysSpelled | apps/api/src/repository-comparison-evidence-resolver.ts:110 | brackets and commas of an array, spelled out |
| Json.ObjectsSpelled | apps/api/src/repository-comparison-evidence-resolver.ts:113-116 | braces, quotes and colons of an object, spelled out |
| Json.EscapesSpelled | apps/api/src/repository-comparison-evidence-resolver.ts:111 | the two-character escapes of RFC 8259 section 7, spelled out |
| Json.HexEscapesSpelled | apps/api/src/repository-comparison-evidence-resolver.ts:111 | the six-character escapes of a control character and of lone surrogates, spelled out |
| Json.SurrogatesSpelled | apps/api/src/repository-comparison-evidence-resolver.ts:111 | of two surrogate units exactly a pair in order is copied, any other two are escaped one by one |
| Json.OthersCopied | apps/api/src/repository-comparison-evidence-resolver.ts:111 | units from 0x7F on that are no surrogates are copied |
| CanonicalJson.CanonicalParses | apps/api/src/repository-comparison-evidence-resolver.ts:109-117 | the canonical text parses back to the value with its properties sorted and its non-finite numbers as null |
| CanonicalJson.EqualTextMeansSame | apps/api/src/repository-comparison-evidence-resolver.ts:89-91 | values with equal canonical text are equal up to property order, for any comparator; NaN and the infinities count as null |
| CanonicalJson.SameMeansEqualText | apps/api/src/repository-comparison-evidence-resolver.ts:113-116 | values equal up to property order have equal text when no object holds two keys that the comparator ties |
| CanonicalJson.CanonicalFaithful | apps/api/src/repository-comparison-evidence-resolver.ts:89-117 | when no object holds two tied keys, equal text if and only if equal up to property order |
| CanonicalJson.OrderInsensitiveExactly | apps/api/src/repository-comparison-evidence-resolver.ts:113-116 | every value that equals a given one up to property order has the same text if and only if no object within it has two keys that the comparator ties |
| CanonicalJson.SortStable | apps/api/src/repository-comparison-evidence-resolver.ts:114 | the sort keeps two entries in the order they are given whenever it may |
| CanonicalJson.ComparatorExactly | apps/api/src/repository-comparison-evidence-resolver.ts:113-116 | the serializer ignores property order on all values if and only if the comparator ties no two different keys |
| CanonicalJson.TieBreaksEquality | apps/api/src/repository-comparison-evidence-resolver.ts:114 | two tied keys give two objects that differ only in property order and have different text |
| CanonicalJson.StableEqualsCanonical | examples/workflow-2-release-policy/src/workflow.ts:40-49 | stableJson, which sorts before it prints, writes the same text on every value |
| Base64Url.CanonicalExactly | packages/artifacts/src/artifact-crypto.ts:60-67 | a string is the encoding of some bytes if and only if it passes the alphabet, length and spare-bit conditions of RFC 4648 sections 3.5 and 5 |
| Base64Url.EncodeCanonical | packages/artifacts/src/policy-evaluation-artifact-reader.ts:144-148 | every encoding is canonical, and decoding it gives the bytes back |
| Base64Url.DecodeRoundTrip | packages/artifacts/src/policy-evaluation-artifact-reader.ts:144-148 | encoding the bytes of a canonical text gives the text back |
| Base64Url.CharacterFromTable | packages/artifacts/src/artifact-crypto.ts:60-67 | the alphabet is that of table 2 of RFC 4648 |
| Base64Url.PublishedVectors | packages/artifacts/src/artifact-crypto.ts:60-67 | test vectors of RFC 4648 section 10, without padding |
| Base64Url.CipherAndReaderAgree | packages/artifacts/src/policy-evaluation-artifact-reader.ts:173-183 | for every size in use, 12, 16 and 32 bytes, the cipher and the reader accept the same strings: the canonical ones |
| Base64Url.DecodingCheckExact | packages/artifacts/src/artifact-crypto.ts:60-67 | decode, compare the size, encode again and compare accepts exactly the encodings of that many bytes, for any lenient decoder |
| Base64Url.CipherAndReaderAgreeExactly | packages/artifacts/src/policy-evaluation-artifact-reader.ts:144-148 | among all sizes the two checks differ for zero only, a size that neither is ever called with |
| Base64Url.PatternIsCanonical | packages/contracts/src/api-key.ts:37-39 | the pattern of 42 alphabet characters and a closing one accepts exactly the encodings of 32 bytes |
| Base64Url.ThirtyTwoByteChecksAgree | apps/api/src/config.ts:12-21 | for 32 bytes the cipher, the reader, both configuration checks and the pattern accept the same strings |
| ArtifactContract.CheckChronology | packages/contracts/src/artifact.ts:205-229 | comparing each present lifecycle time with the previous present one decides whether all of them are in order |
| ArtifactContract.CheckStages | packages/contracts/src/artifact.ts:69-80 | comparing neighbouring records decides whether all redaction stages are in order |
| ArtifactContract.ValidExactly | packages/contracts/src/artifact.ts:165-239 | a record is valid if and only if it carries exactly the lifecycle times of its state in order, its size is positive, and its redaction stages never step back and end at the reference's stage |
| Envelope.AuthenticatedDataExact | packages/artifacts/src/artifact-crypto.ts:90-131 | two valid records have the same authenticated data if and only if they agree on every protected field; no state and no lifecycle time enters it |
| Envelope.AuthenticatedByName | packages/artifacts/src/artifact-crypto.ts:90-131 | whatever value the authenticated text is read back as, it holds the twelve named properties with the metadata's values, nested redaction and retention included, and no other |
| Envelope.ObjectRoundTrip | packages/artifacts/src/artifact-crypto.ts:174-191 | bytes parse to a tag and ciphertext if and only if they are the printed form of them, which is 20 bytes longer than the content |
| Envelope.ObjectLayout | packages/artifacts/src/artifact-crypto.ts:174-191 | bytes parse to a tag and a ciphertext if and only if they are PSA1, sixteen bytes of tag and a ciphertext that is not empty |
| Envelope.DecryptExactly | packages/artifacts/src/artifact-crypto.ts:219-288 | under any later metadata with the same protected fields, an object decrypts to a content if and only if it is the encryption of that content |
| Envelope.OneCiphertext | packages/artifacts/src/artifact-crypto.ts:144-159 | all accepted encryptions under one reservation and plan are of one content and give one object |
| Envelope.OneObject | packages/artifacts/src/artifact-crypto.ts:250-288 | two objects that decrypt under one reservation and plan are the same object |
| Envelope.PlannedEncryption | packages/artifacts/src/artifact-crypto.ts:199-248 | under the plan made for a reservation, encryption succeeds if and only if the content is the reserved one |
| Envelope.IdealIsConsistent | packages/artifacts/src/artifact-crypto.ts:193-288 | what is assumed of the digest, the AEAD and key wrapping can be met all at once |
| Envelope.CreatePlan | packages/artifacts/src/artifact-crypto.ts:199-217 | the data key is recovered from the plan under the authenticated data it was wrapped for |
| Lifecycle.EnvelopeIsLawful | packages/artifacts/src/artifact-crypto.ts:193-288 | everything the protocol assumes of encryption holds of the envelope over ideal primitives |
| CatalogContract.FindContract | packages/artifacts/src/testing/memory-artifact-catalog-repository.ts:141-144 | a find answers the record if and only if there is one of exactly this scope |
| CatalogContract.ReserveContract | packages/artifacts/src/testing/memory-artifact-catalog-repository.ts:121-139 | the first reservation is stored as it is, an equal one gets the first record, any other conflicts; of two expiries only the instants count |
| CatalogContract.ActivateContract | packages/artifacts/src/testing/memory-artifact-catalog-repository.ts:156-177 | a reserved artifact becomes available with the receipt and the time given and nothing else changes; again only with the same receipt; each refusal with its cause |
| CatalogContract.TombstoneContract | packages/artifacts/src/testing/memory-artifact-catalog-repository.ts:179-214 | owned content is never tombstoned directly; otherwise once, from the state that the trigger is for, and again only by the same request |
| CatalogContract.TombstoneOwnedContract | packages/artifacts/src/testing/memory-artifact-catalog-repository.ts:330-364 | a coordinated revocation tombstones owned, available content, once |
| CatalogContract.RecordPurgeContract | packages/artifacts/src/testing/memory-artifact-catalog-repository.ts:216-230 | the first purge record of a tombstoned artifact counts, and later ones change nothing |
| CatalogContract.ClaimContract | packages/artifacts/src/testing/memory-artifact-catalog-repository.ts:310-327 | a fixture may claim retained, available content that nobody owns, once |
| ProtocolSafety.InsertKeeps | packages/artifacts/src/testing/memory-artifact-catalog-repository.ts:121-139 | a reservation keeps both stores sound, first writer or not |
| ProtocolSafety.ActivateKeeps | packages/artifacts/src/testing/memory-artifact-catalog-repository.ts:156-177 | an activation with the stored object's receipt keeps both stores sound |
| ProtocolSafety.TombstoneKeeps | packages/artifacts/src/testing/memory-artifact-catalog-repository.ts:179-214 | a tombstone, accepted or refused, keeps both stores sound and states monotone |
| ProtocolSafety.RecordKeeps | packages/artifacts/src/testing/memory-artifact-catalog-repository.ts:216-230 | a purge record keeps both stores sound and states monotone |
| ProtocolSafety.ClaimKeeps | packages/artifacts/src/testing/memory-artifact-catalog-repository.ts:310-327 | a fixture claim keeps both stores sound and is permanent |
| ProtocolSafety.RevokeKeeps | packages/artifacts/src/testing/memory-artifact-catalog-repository.ts:330-364 | an owned tombstone keeps both stores sound |
| ProtocolSafety.PutKeeps | packages/artifacts/src/upload-artifact.ts:75-85 | put-if-absent leaves exactly the caller's ciphertext under the key, whether it stored it or found it |
| ProtocolSafety.DeleteKeeps | packages/artifacts/src/purge-artifact.ts:59-62 | a delete by a process that saw the tombstone touches no live artifact |
| ProtocolSafety.StepKeeps | packages/artifacts/src/artifact-ports.ts:117-157 | each of the sixteen kinds of step, crashes included, keeps the invariant and only advances entries |
| ProtocolSafety.RunKeeps | packages/artifacts/src/artifact-ports.ts:117-157 | so does every schedule of any number of processes over any number of artifacts |
| ProtocolContract.ClaimedGoesByRevocation | packages/artifacts/src/testing/memory-artifact-catalog-repository.ts:310-364 | once a fixture has claimed an artifact no tombstone of another kind reaches it; the revocation of the fixture does, and leaves object and owner for the purge |
| ProtocolContract.ListedExactly | packages/artifacts/src/reconcile-artifact-reservations.ts:45-62 | a reconciliation takes up exactly the reservations of its scope that are no younger than its threshold |
| ProtocolContract.NothingToReconcile | packages/artifacts/src/reconcile-artifact-reservations.ts:63-71 | one that finds no object leaves the reservation as it is |
| ProtocolContract.InterruptedIsFinished | packages/artifacts/src/reconcile-artifact-reservations.ts:63-83 | one that finds the object makes the artifact available with the receipt of that object and the time of the pass |
| ProtocolContract.CrashLosesOnlyCaptures | packages/artifacts/src/artifact-ports.ts:117-157 | a crash loses what one process has captured and touches neither store |
| Lifecycle.AvailableIsStored | packages/artifacts/src/upload-artifact.ts:69-101 | in every run an available artifact has its object stored, with the catalog's receipt, and the object decrypts to reserved content |
| Lifecycle.AvailableOpens | packages/artifacts/src/artifact-crypto.ts:250-288 | the same for the real envelope: the object opens to bytes of the reserved digest and length |
| Lifecycle.UploadsAgree | packages/artifacts/src/upload-artifact.ts:75-85 | in every run the object conflict is unreachable, and the accepted uploads of an artifact, at any two moments and however often retried, hold one content and one ciphertext |
| Lifecycle.OnlyAdvances | packages/artifacts/src/artifact-ports.ts:16-30 | in every run states only advance; plan, object key, reserved fields, tombstone and purge receipt of an entry never change |
| Lifecycle.PurgeExactly | packages/artifacts/src/purge-artifact.ts:54-73 | once an artifact is gone, no continuation ever shows a recorded purge beside a stored object if and only if no upload has its put pending and no purge has already deleted what is stored |
| Lifecycle.TombstoneExactly | packages/artifacts/src/tombstone-artifact.ts:58-75 | at the step that tombstones an artifact its purges stay clean for ever if and only if no upload of it is in flight |
| Lifecycle.PurgedButStored | packages/artifacts/src/upload-artifact.ts:69-85 | for every artifact that can be uploaded a run from empty stores ends with the purge recorded and the object stored |
| Lifecycle.StrandedExactly | packages/artifacts/src/artifact-maintenance.ts:148-165 | such an object stays for ever if and only if no purge that saw the tombstone is under way; the retry of pending purges never reaches it |
| Stores.RunIgnores | packages/artifacts/src/artifact-ports.ts:117-157 | a process that waits at an await neither changes what the others do nor is changed by them |
| Stores.Backend.Await | packages/artifacts/src/upload-artifact.ts:75-84 | while a call is suspended the others take any steps, and the invariant holds when it resumes |
| Stores.Backend.PutIfAbsent | packages/artifacts/src/artifact-ports.ts:152-157 | every stored object stays as it is, the key is bound to the bytes only if it was free, nothing else changes, and the receipt is that of what the key holds now |
| Stores.PutDetermined | packages/artifacts/src/artifact-ports.ts:152-157 | these promises leave the put of the protocol as the only possible effect |
| UseCases.UploadCallRight | packages/artifacts/src/upload-artifact.ts:69-101 | an upload returns only with the artifact available and its stored object opening to exactly this content, and fails only because the artifact is unknown or gone or the content is refused |
| UseCases.UploadCallExactly | packages/artifacts/src/upload-artifact.ts:55-102 | which of its four answers an upload gives: not found, refused content, artifact gone, or done, each if and only if its condition holds of the record found and the artifact at the end |
| UseCases.UploadStamps | packages/artifacts/src/upload-artifact.ts:84-101 | the upload that activates an artifact records the receipt of its bytes and the time read after its put |
| UseCases.UploadCallRefines | packages/artifacts/src/upload-artifact.ts:69-101 | an upload is exactly its find, put and activation steps of the protocol with the others in between |
| UseCases.PurgeCallRight | packages/artifacts/src/purge-artifact.ts:54-73 | a purge succeeds if and only if its first look finds the artifact tombstoned or purged, and then leaves the purge recorded |
| UseCases.PurgeCallRecords | packages/artifacts/src/purge-artifact.ts:54-73 | unless another purge was recorded meanwhile, its own receipt stands, with whether there was an object and when it was deleted; and no object is left if nobody acts after the delete |
| UseCases.PurgeCallRefusals | packages/artifacts/src/purge-artifact.ts:54-58 | what a purge answers of an artifact that is not tombstoned |
| UseCases.PurgeCallRefines | packages/artifacts/src/purge-artifact.ts:54-73 | a purge is exactly its find, delete and record steps of the protocol |
| UseCases.ReserveCallRight | packages/artifacts/src/reserve-artifact.ts:83-125 | the find-then-reserve race: the first writer fixes key and plan, and a later reservation succeeds exactly when its identity is the same and then returns the first record |
| UseCases.ReserveCallRefusals | packages/artifacts/src/reserve-artifact.ts:83-110 | a reservation is refused before the catalog is asked if and only if its metadata is not a valid fresh reservation stamped by now or would expire no later than it begins |
| UseCases.ReserveCallCreates | packages/artifacts/src/reserve-artifact.ts:100-125 | a record that a reservation creates is the caller's, with its metadata, its own plan and its own key |
| UseCases.ReserveCallRefines | packages/artifacts/src/reserve-artifact.ts:83-125 | a reservation is exactly its find and commit steps of the protocol |
| UseCases.ReserveFindAgrees | packages/artifacts/src/reserve-artifact.ts:86-110 | the protocol lets a reservation in exactly when the call does |
| UseCases.ReadCallRight | packages/artifacts/src/read-artifact.ts:72-89 | a read answers not found, forbidden or unavailable exactly when the record is unknown, restricted without the capability, or allowed and not available; otherwise it returns the reserved content, or the object is missing and the artifact is gone; the protection error is unreachable |
| UseCases.ReadsReturnUploads | packages/artifacts/src/read-artifact.ts:72-89 | after an upload, in every continuation, a read that returns content returns the uploaded content and metadata |
| ArtifactService.Artifacts.Reserve | packages/artifacts/src/reserve-artifact.ts:83-125 | the call and its effect are those of the specification, and the stores stay sound |
| ArtifactService.Artifacts.Upload | packages/artifacts/src/upload-artifact.ts:49-102 | the same for an upload |
| ArtifactService.Artifacts.Read | packages/artifacts/src/read-artifact.ts:55-90 | the same for a read, so each of its answers is the one that ReadCallRight gives |
| ArtifactService.Artifacts.Purge | packages/artifacts/src/purge-artifact.ts:37-75 | the same for a purge |
| Maintenance.Passes.ReconcileOne | packages/artifacts/src/reconcile-artifact-reservations.ts:63-87 | the outcome says what became of the artifact: activated ones are not reserved any more, a missing object was not stored before unless the artifact is gone, and only a tombstone makes a candidate fail |
| Maintenance.Passes.Reconcile | packages/artifacts/src/reconcile-artifact-reservations.ts:45-97 | a pass lists up to its limit, counts every candidate under the one outcome it had, and each outcome holds of the artifact at the end |
| Maintenance.InterruptedAreRecovered | packages/artifacts/src/reconcile-artifact-reservations.ts:63-83 | so no listed upload whose object was stored when the pass began is left reserved |
| Maintenance.Passes.Retire | packages/artifacts/src/artifact-maintenance.ts:64-96 | the report counts exactly the tombstones created and names exactly the candidates refused, as the stores were when each was reached; all others end up purged, and one is refused only if it had moved on from the listed state or is owned |
| Maintenance.Passes.ProcessRetention | packages/artifacts/src/artifact-maintenance.ts:98-117 | the pass over different available artifacts whose expiry has come, all of them when they are fewer than the limit: afterwards each is purged, or named in the report and moved on or owned |
| Maintenance.Passes.ProcessAbandoned | packages/artifacts/src/artifact-maintenance.ts:119-143 | the same for reservations that are no younger than the threshold, which is at least an hour ago |
| Maintenance.Passes.RetryPurges | packages/artifacts/src/artifact-maintenance.ts:145-165 | without store failures a retry purges everything it lists and reports nothing as failed |
| Maintenance.List | packages/artifacts/src/testing/memory-artifact-catalog-repository.ts:253-284 | a listing returns different matching entries up to the limit, and all of them when there are fewer |
| PolicyReader.Reader.ReadArtifact | packages/artifacts/src/policy-evaluation-artifact-reader.ts:355-460 | between any steps of the others the answer is the one that DecideExactly and DecideRefuses read off the two catalog records and the clock; object_missing, content_integrity_failed and a protection error are unreachable |
| PolicyReader.Reader.Observe | packages/artifacts/src/policy-evaluation-artifact-reader.ts:422-454 | the supplied object passes every check or the artifact is gone |
| PolicyReader.DecideIsSound | packages/artifacts/src/policy-evaluation-artifact-reader.ts:384-459 | a completed read has ordered clock readings, stays within the byte ceiling, counts its reads exactly, and is verified only for an available, unexpired artifact that existed at the evaluation time |
| PolicyReader.DecideExactly | packages/artifacts/src/policy-evaluation-artifact-reader.ts:355-460 | verified if and only if both finds return one valid record of this scope and reference that the caller may see, that is available and in time, whose expiry is absent or after the completion, and whose object fits the ceiling; which record or clock fact causes each other answer, which usage and which record are reported |
| PolicyReader.DecideRefuses | packages/artifacts/src/policy-evaluation-artifact-reader.ts:231-242 | what is answered when the input is not admitted, the reference is not supported, or a clock reading fails or runs backwards |
| PolicyReader.VerifiedThroughout | packages/artifacts/src/policy-evaluation-artifact-reader.ts:409-459 | a verified answer is a stable snapshot: at every moment between the two finds the artifact was available under that record with its object stored and decrypting |
| PolicyReader.FetchedFits | packages/artifacts/src/policy-evaluation-artifact-reader.ts:186-194 | the receipt size check and the digest check accept what the store holds |
| AsyncMutex.MutualExclusion | apps/api/src/memory-interaction-storage.ts:33-49 | in every run at most one operation is inside, released calls are a prefix, and a call may enter if and only if it is the oldest waiting and none is inside |
| AsyncMutex.DrainReleasesAll | apps/api/src/memory-interaction-storage.ts:41-48 | from every reachable state all callers get in and out, in call order |
| AsyncMutex.LaterCallsWait | apps/api/src/memory-interaction-storage.ts:41-48 | while an operation is inside no later call gets in, so an operation that waits for one never ends |
| AsyncMutex.Serializable | apps/api/src/memory-interaction-storage.ts:36-48 | what the operations did, in the order they did it, is what the calls would have done one after the other in call order |
| AsyncMutex.Mutex.Enter | apps/api/src/memory-interaction-storage.ts:37-40 | a call takes its place by replacing the tail, before anything is awaited |
| AsyncMutex.Mutex.Release | apps/api/src/memory-interaction-storage.ts:44-47 | an operation that returned or threw resolves its own promise |
| Coordination.NeverDiverge | apps/api/src/memory-interaction-storage.ts:258-272 | after any calls, each returning or throwing, ownership is the same in both stores and an owned artifact is tombstoned or purged if and only if its version is revoked |
| Coordination.PublishKeeps | apps/api/src/memory-interaction-storage.ts:184-216 | publication keeps the stores in agreement; its ownership refusal and a catalog refusal half way through are unreachable |
| Coordination.PublishExactly | packages/datasets/src/testing/memory-regression-version-repository.ts:396-418 | a new version is published if and only if its artifacts are distinct, its lineage and intent are accepted, and every artifact is available, retained, unowned, as bound and not seeded earlier in another state |
| Coordination.RevokeKeeps | apps/api/src/memory-interaction-storage.ts:229-249 | revocation, whatever it answers, keeps the stores in agreement and changes nothing when it throws; its ownership refusal is unreachable |
| AdapterContract.RevokeExactly | apps/api/src/memory-interaction-storage.ts:226-250 | a first revocation succeeds if and only if the version is known in that scope under that fixture, there is one fitting tombstone per owned artifact and the outbox takes the intent; each failing condition has its error; on success every owned artifact carries exactly its tombstone in both stores and no other row changes |
| AdapterContract.RevokeAgainExactly | packages/datasets/src/testing/memory-regression-version-repository.ts:662-723 | revoking again changes nothing and returns the stored tombstones if and only if the reason is the same |
| AdapterContract.PublishContract | apps/api/src/memory-interaction-storage.ts:181-217 | the answer of a first publication in every case, how far its seeding gets, and the claims and version it leaves in both stores, row by row |
| AdapterContract.RepublishContract | apps/api/src/memory-interaction-storage.ts:181-217 | a stored version published again changes nothing and conflicts if its definition differs; stored in another scope of the tenant it seeds first |
| AdapterContract.FindsExactly | packages/datasets/src/testing/memory-regression-version-repository.ts:535-560 | while the stores agree, the finds before both calls answer exactly by whether the version is stored in that scope |
| AdapterContract.OtherOwnerRefused | apps/api/src/memory-interaction-storage.ts:203-210 | in stores that do not agree, a publication is refused before any claim as soon as the catalog shows another owner |
| AdapterContract.MissingOwnerRefused | apps/api/src/memory-interaction-storage.ts:233-242 | and a revocation is refused before any change as soon as the catalog does not show the owner |
| Coordination.CatalogKeeps | apps/api/src/memory-interaction-storage.ts:57-113 | every locked catalog operation keeps the stores in agreement |
| Coordination.SeedAllExactly | packages/datasets/src/testing/memory-regression-version-repository.ts:758-770 | seeding succeeds if and only if no bound artifact is unknown or was seeded otherwise, and then the seeded records are the catalog's |
| Coordination.SeededTooEarly | apps/api/src/memory-interaction-storage.ts:189-201 | once a refused publication has seeded an artifact's record in an earlier state, no later publication that binds it succeeds |
| Coordination.RefusedThenActivated | apps/api/src/memory-interaction-storage.ts:189-201 | how that comes about: publish too early, then complete the upload |
| Coordination.MemoryStorage.PublishRecordedVersion | apps/api/src/memory-interaction-storage.ts:181-217 | the method with its seeding, checking and claiming loops has the specified result and effect |
| Coordination.MemoryStorage.RevokeContent | apps/api/src/memory-interaction-storage.ts:226-250 | the method with its checking and tombstoning loops has the result and effect that RevokeExactly and RevokeAgainExactly determine |
| LockedAdapters.AdvanceKeepsOutcome | apps/api/src/memory-interaction-storage.ts:184-249 | every small step of a locked operation, a find, a seed, a claim or a throw, leaves the outcome of the whole operation as it was |
| LockedAdapters.StepsAddUp | apps/api/src/memory-interaction-storage.ts:184-249 | every locked operation ends, and alone its small steps add up to the operation |
| LockedAdapters.CallsAreAtomic | apps/api/src/memory-interaction-storage.ts:33-49 | however the small steps of any number of calls are interleaved, whenever nobody is inside the mutex the stores are what the calls that have left make of them one after the other in order of arrival |
| LockedAdapters.EveryCallIsServed | apps/api/src/memory-interaction-storage.ts:33-49 | every schedule can be continued without new calls until all calls have left, whether they return or throw, and the stores are then those of all calls in order of arrival |
| LockedAdapters.NeverDivergeInAnySchedule | apps/api/src/memory-interaction-storage.ts:258-272 | so ownership and revocation agree in both stores after every schedule of the locked adapters |
| UsageProjection.ProjectUsage | apps/api/src/repository-comparison-evidence-resolver.ts:186-257 | fails if and only if the observed amounts of some dimension other than job attempts add up to more than 2^53 - 1, and names one; otherwise every field of every status is the count, sum or set of labels taken from the measurements of that dimension themselves |
| UsageProjection.RoundingIsHarmless | apps/api/src/repository-comparison-evidence-resolver.ts:198-199 | the binary64 sum of two safe integers is the nearest representable one, ties to even, and checking it against 2^53 - 1 is the same as checking the exact sum |
| UsageProjection.StatusMeaning | apps/api/src/repository-comparison-evidence-resolver.ts:216-256 | which status is reported follows from which counts are zero |
| UsageProjection.TallyIsMeasured | apps/api/src/repository-comparison-evidence-resolver.ts:192-208 | the running tally of a dimension is the number of its measurements with and without an amount, the sum of the amounts, and exactly the labels that occur |
| UsageProjection.OverflowsExactly | apps/api/src/repository-comparison-evidence-resolver.ts:198-200 | the overflow condition is that of the summed measurements |
| UsageProjection.ProjectionOrderIndependent | apps/api/src/repository-comparison-evidence-resolver.ts:192-208 | neither the projection nor the overflow depends on the order of the measurements |
| TraceStructure.Summarise | apps/api/src/repository-comparison-evidence-resolver.ts:137-146 | one pass fills the three tables with exactly the non-zero counts |
| TraceStructure.KindMarginal | apps/api/src/repository-comparison-evidence-resolver.ts:141-146 | summing the pairs of a kind over the statuses gives the count of the kind |
| TraceStructure.StatusMarginal | apps/api/src/repository-comparison-evidence-resolver.ts:141-146 | summing the pairs of a status over the kinds gives the count of the status |
| TraceStructure.KindsTotal | apps/api/src/repository-comparison-evidence-resolver.ts:148 | the kinds add up to the events |
| TraceStructure.SplitExactly | apps/api/src/repository-comparison-evidence-resolver.ts:157-166 | splitting a pair's key at its last colon recovers the pair if and only if its status holds no colon |
| TraceStructure.RowsExactly | apps/api/src/repository-comparison-evidence-resolver.ts:155-166 | for arbitrary texts the pair rows are right if and only if no status holds a colon |
| TraceStructure.ParsedRowsCorrect | apps/api/src/repository-comparison-evidence-resolver.ts:401-405 | events are parsed first, so their status is unset, ok or error and the pair rows are always right |
| SourceCutoff.NewestTimestamp | apps/api/src/repository-comparison-evidence-resolver.ts:259-270 | the newest key is found, rounded and range-checked; no sources is an error |
| SourceCutoff.CutoffCovers | apps/api/src/repository-comparison-evidence-resolver.ts:266 | no source lies after the cutoff, which is less than two milliseconds after the newest |
| SourceCutoff.CeilingExactly | apps/api/src/repository-comparison-evidence-resolver.ts:266 | the truncating division is a ceiling exactly for times after the last millisecond before 1970 or one microsecond past a millisecond |
| SourceCutoff.CutoffOrderIndependent | apps/api/src/repository-comparison-evidence-resolver.ts:259-265 | neither the order of the sources nor their repetition changes the cutoff |
| VerdictTally.TallyMembers | apps/api/src/repository-comparison-evidence-resolver.ts:573-688 | succeeds if and only if every member passes its checks and one matches; the error is that of the first failing check of the first failing member; the five counts are those of the matching members and add up to the total |
| VerdictTally.TotalsConserve | apps/api/src/repository-comparison-evidence-resolver.ts:618-624 | over distinct fixtures the totals add up to the members that match any, so to at most all members, and to all exactly when each matches one |
| VerdictTally.RepeatedSubject | apps/api/src/repository-comparison-evidence-resolver.ts:352-353 | with a fixture listed twice one member is counted twice |
| ArtifactEvidence.MergeReferences | apps/api/src/repository-comparison-evidence-resolver.ts:816-823 | merging succeeds if and only if references to the same artifact agree, and keeps one entry per artifact |
| ArtifactEvidence.ResolveArtifacts | apps/api/src/repository-comparison-evidence-resolver.ts:799-866 | a fixture gets one ordered state per artifact it refers to: available if and only if the capture does not decide and the catalog answers a view with the same content in the catalog, revoked if and only if the captured content is revoked or such a view is tombstoned or purged, unavailable otherwise |
| ArtifactEvidence.ResolveSubject | apps/api/src/repository-comparison-evidence-resolver.ts:347-369 | a subject resolves if and only if each fixture's references agree and no artifact is shared between fixtures; each fixture then has the states of ResolveArtifacts |
| ArtifactEvidence.AvailabilityIsJudged | apps/api/src/repository-comparison-evidence-resolver.ts:845-866 | the three availabilities exclude each other and one always applies, each stated by what capture and catalog hold |
| ArtifactEvidence.OmissionsBalance | apps/api/src/repository-comparison-evidence-resolver.ts:447-460 | omissions are as many as fixtures and not-available states together |
| ArtifactEvidence.OmittedExactly | apps/api/src/repository-comparison-evidence-resolver.ts:855-863 | each state that is not available has exactly one omission, with its fixture and the matching reason, and no artifact omission exists beyond these |
| ArtifactEvidence.ExcludedOnce | apps/api/src/repository-comparison-evidence-resolver.ts:447-460 | each fixture of the subject has exactly one omission for its excluded content |
| CredentialScan.ContainsForbiddenCredential | packages/artifacts/src/artifact-content-inspection.ts:71-86 | the worklist ends on every value and answers the recursive definition |
| CredentialScan.TaintedExactly | packages/artifacts/src/artifact-content-inspection.ts:71-86 | that definition holds if and only if some path leads to an object with a forbidden property name |
| CredentialScan.SeparatorsIgnored | packages/artifacts/src/artifact-content-inspection.ts:48-50 | a code unit can be put into a name without effect if and only if its lower case holds no ASCII letter or digit |
| CredentialScan.KeepExactly | packages/artifacts/src/artifact-content-inspection.ts:48-50 | what is kept of a text are its units among a-z and 0-9, listed literally, in order |
| CredentialScan.NormalizedExactly | packages/artifacts/src/artifact-content-inspection.ts:48-50 | a name is normalised unit by unit, to what is kept of the lower case of each |
| CredentialScan.ValidateScanners | packages/artifacts/src/artifact-content-inspection.ts:88-101 | accepted if and only if all tokens are well formed and no scanner is listed twice |
| CredentialScan.TokenExactly | packages/contracts/src/artifact.ts:49 | a token has one to 64 units among the listed letters, digits and marks, and starts with no mark |
| WorkerStream.LinesHoldNoNewline | examples/durable-replay/src/workflow.ts:342-348 | no line and no residue holds a newline |
| WorkerStream.LinesRejoin | examples/durable-replay/src/workflow.ts:342-348 | the lines and the residue hold the whole text |
| WorkerStream.ChunkingIrrelevant | examples/durable-replay/src/workflow.ts:335-349 | for any chunking the events are those of the newline-terminated segments of the whole stream, and the buffer is the residue |
| WorkerStream.CloseTakesResidue | examples/durable-replay/src/workflow.ts:368-371 | at the close a non-empty residue counts as one more line |
| WorkerStream.SettledOnce | examples/durable-replay/src/workflow.ts:286-388 | a waiter is settled at most once and for good, none is left after the close, and at most one acknowledgement is written |
| WorkerStream.PublishExactly | examples/durable-replay/src/workflow.ts:294-321 | an event settles exactly the callers that wait for its name, with that event; a report request that is the second or comes outside a run fails the worker and settles nobody |
| WorkerStream.LineExactly | examples/durable-replay/src/workflow.ts:322-334 | an empty line does nothing, a line that parses is published, and any other fails the worker |
| WorkerStream.CloseExactly | examples/durable-replay/src/workflow.ts:368-388 | at the close the residue is a line, a bad exit is a failure, and exactly the callers left are rejected |
| WorkerStream.PublishedExactly | examples/durable-replay/src/workflow.ts:300-313 | the acknowledgement is written if and only if the requested publication succeeds before the worker is gone |
| WorkerStream.WaitsExactly | examples/durable-replay/src/workflow.ts:395-412 | a caller waits if and only if its event has not been seen and the worker has not closed; a timeout rejects that caller alone |
| WorkerStream.Controller.PublishEvent | examples/durable-replay/src/workflow.ts:294-321 | an event is logged, a second report request fails the worker, and exactly the waiters for the event are resolved |
| WorkerStream.Controller.Closed | examples/durable-replay/src/workflow.ts:369-388 | the close handles the residue, and rejects every waiter left |
| WorkerStream.Controller.WaitForEvent | examples/durable-replay/src/workflow.ts:395-403 | a caller waits exactly when the event has not been seen and the worker has not closed |
| WorkerStream.Controller.Data | examples/durable-replay/src/workflow.ts:335-349 | the splitting loop handles exactly the lines of buffer and chunk and keeps the residue |
| ReplayTarget.OnScriptExactly | examples/durable-replay/src/target-source.ts:110-191 | for any hold time and any lines the output is a prefix of ready, model request 0, tool request 1, completed if and only if no model result was taken while its request was still held back |
| ReplayTarget.AnsweringFollowsScript | examples/durable-replay/src/target-source.ts:110-191 | with a worker that only answers requests it was sent, every run follows the script |
| ReplayTarget.WireOnlyGrows | examples/durable-replay/src/target-source.ts:70-88 | nothing is sent after fail or finish |
| ReplayTarget.CompletedMeans | examples/durable-replay/src/target-source.ts:154-191 | completed is sent only after a succeeded model result and a later failed tool result of the session |
| ReplayTarget.LineExactly | examples/durable-replay/src/target-source.ts:110-222 | the three lines that move the target on, each from one phase only and field by field, what it sends for them, and that every other line ends it, well for a stop and badly otherwise |
| ReplayTarget.TimerExactly | examples/durable-replay/src/target-source.ts:145-151 | the timer sends the model request once, if the target is still writing |
| ReplayTarget.ScriptIsCompleted | examples/durable-replay/src/target-source.ts:110-191 | a worker that starts the target and answers each request gets the whole script and a good exit |
| ReplayTarget.Target.Start | examples/durable-replay/src/target-source.ts:110-152 | the start handler moves the phase machine as specified |
| ReplayTarget.Target.BoundaryResult | examples/durable-replay/src/target-source.ts:154-191 | the result handler moves the phase machine as specified |

## Left out

- HTTP routes, authentication of principals, configuration loading, the PostgreSQL and S3 adapters, process spawning and the web console.
- Formats of single fields (identifiers, digests, media types, string lengths), the uniqueness of redaction rulesets and of changed paths, and the maximum sizes of content and authenticated data.
- The UTF-8 encoding of authenticated data: it is modelled as code units before encoding.
- Encryption plans are held decoded, so the base64url checks on stored plans are stated about strings in Base64Url and not repeated inside the envelope.
- The keyring's constructor and the wiping of key buffers; wrapping is known only by unwrapping undoing it.
- Failures of the object store, the catalog or the key provider other than a crash at an await.
- The order of maintenance listings: Maintenance.List returns the matching entries in any order.
- The policy reader's record digest: records are compared as values, which is the same for a collision-free digest of a faithful canonical text.
- The order of lifecycle timestamps across processes: a use case reads the clock before its catalog step.
- The dataset and evidence-only version families of the regression store: publication takes the answer of their lineage checks as a parameter.
- Reads of the regression store that bypass the mutex, which may see a publication half way.
- Schema validation of a catalog record while it is seeded into the regression store: records are taken as valid.
- The order of rows in the trace and usage summaries, the lookup of raw observations of matching members, and the final sorting of comparison omissions, limitations, assurance states and outcomes for display.
- Safety events, numeric observations and model assurance of the comparison resolver: field selection without arithmetic.
- ArtifactEvidence.ResolveSubject: the artifacts that evaluations contribute are part of each fixture's references and not looked up.
- The printing of the source cutoff as a date, and the error for milliseconds beyond the range of dates.
- WorkerStream.Controller.Data: the output byte limit and characters split across chunks are not modelled.
- CredentialScan: lower-casing is a parameter that works code unit by code unit; decoding and parsing of the content come before it.
- Context-dependent lower-casing of a final sigma, which no ASCII letter results from either way.
