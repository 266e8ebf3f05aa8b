/**
  The encrypted-object format of an artifact: which metadata is authenticated, how an object is
  printed and parsed, and what encryption and decryption promise each other.

  The primitives are values of the record `Crypto`.  `Ideal` says what is assumed of them: a
  collision-free digest, an AEAD that opens exactly what it sealed, and key unwrapping that undoes
  wrapping under the same context.
 */
module Envelope {
  import opened Prelude
  import opened Json
  import opened ArtifactContract

  newtype Byte = b: int | 0 <= b < 0x100
  type Bytes = seq<Byte>

  datatype Sealed = Sealed(ciphertext: Bytes, tag: Bytes)
  datatype Plan = Plan(contentNonce: Bytes, wrappedKey: Bytes)
  datatype Receipt = Receipt(sha256: Text, sizeBytes: nat)
  datatype EncryptedObject = EncryptedObject(bytes: Bytes, receipt: Receipt)
  datatype CryptoError = ContentMismatch | Protection

  datatype Crypto = Crypto(
    hash: Bytes -> Text,
    seal: (Bytes, Bytes, Text, Bytes) -> Sealed,
    open: (Bytes, Bytes, Text, Sealed) -> Option<Bytes>,
    wrap: (Bytes, Text) -> Bytes,
    unwrap: (Bytes, Text) -> Option<Bytes>)

  const MAGIC: Bytes := [0x50, 0x53, 0x41, 0x31]  // "PSA1"
  const TAG_BYTES := 16
  const DATA_KEY_BYTES := 32
  const OBJECT_OVERHEAD := 20

  ghost predicate Ideal(c: Crypto) {
    && (forall p, q :: c.hash(p) == c.hash(q) ==> p == q)
    && (forall k, n, a, p :: |c.seal(k, n, a, p).ciphertext| == |p| && |c.seal(k, n, a, p).tag| == TAG_BYTES)
    && (forall k, n, a, s, p :: c.open(k, n, a, s) == Some(p) <==> c.seal(k, n, a, p) == s)
    && (forall k, a :: c.unwrap(c.wrap(k, a), a) == Some(k))
  }

  function ReceiptOf(c: Crypto, bytes: Bytes): Receipt { Receipt(c.hash(bytes), |bytes|) }

  // ---------------------------------------------------------------- authenticated data

  function Ascii(s: string): Text { seq(|s|, i requires 0 <= i < |s| => (s[i] as int % 0x1_0000) as Unit) }

  /** The decimal text of a number, as JSON.stringify writes it. */
  function Decimal(n: nat): Text {
    if n < 10 then [(0x30 + n) as Unit] else Decimal(n / 10) + [(0x30 + n % 10) as Unit]
  }

  function StageText(stage: Stage): Text {
    match stage
    case Source => Ascii("source")
    case Ingest => Ascii("ingest")
    case RetentionStage => Ascii("retention")
  }

  function Texts(texts: seq<Text>): (r: seq<Value>)
    ensures |r| == |texts| && forall i | 0 <= i < |r| :: r[i] == Str(texts[i])
  {
    seq(|texts|, i requires 0 <= i < |texts| => Str(texts[i]))
  }

  function RecordJson(r: RedactionRecord): Value {
    Obj([
      Entry(Ascii("changedPaths"), Arr(Texts(r.changedPaths))),
      Entry(Ascii("matchCount"), Number(Decimal(r.matchCount))),
      Entry(Ascii("rulesetId"), Str(r.rulesetId)),
      Entry(Ascii("rulesetVersion"), Str(r.rulesetVersion)),
      Entry(Ascii("stage"), Str(StageText(r.stage)))])
  }

  function RecordsJson(rs: seq<RedactionRecord>): (r: seq<Value>)
    ensures |r| == |rs| && forall i | 0 <= i < |r| :: r[i] == RecordJson(rs[i])
  {
    seq(|rs|, i requires 0 <= i < |rs| => RecordJson(rs[i]))
  }

  function RedactionJson(redaction: Redaction): Value {
    match redaction
    case NotPerformed => Obj([Entry(Ascii("status"), Str(Ascii("not_performed")))])
    case NotRequired => Obj([Entry(Ascii("status"), Str(Ascii("not_required")))])
    case Applied(records) =>
      Obj([Entry(Ascii("records"), Arr(RecordsJson(records))), Entry(Ascii("status"), Str(Ascii("applied")))])
  }

  function RetentionJson(retention: Retention): Value {
    match retention
    case Retain => Obj([Entry(Ascii("mode"), Str(Ascii("retain")))])
    case Expire(at) => Obj([Entry(Ascii("expiresAt"), Str(at.text)), Entry(Ascii("mode"), Str(Ascii("expire")))])
  }

  function AadJson(m: Metadata): Value {
    var r := m.contentReference;
    Obj([
      Entry(Ascii("artifactId"), Str(r.artifactId)),
      Entry(Ascii("classification"), Str(r.classification)),
      Entry(Ascii("environmentId"), Str(m.scope.environmentId)),
      Entry(Ascii("mediaType"), Str(r.mediaType)),
      Entry(Ascii("projectId"), Str(m.scope.projectId)),
      Entry(Ascii("redaction"), RedactionJson(m.redaction)),
      Entry(Ascii("retention"), RetentionJson(m.retention)),
      Entry(Ascii("schemaVersion"), Str(Ascii("0.1"))),
      Entry(Ascii("sha256"), Str(r.sha256)),
      Entry(Ascii("sizeBytes"), Number(Decimal(r.sizeBytes))),
      Entry(Ascii("tenantId"), Str(m.scope.tenantId)),
      Entry(Ascii("version"), Str(Ascii("proofstack-artifact-aad-v1")))])
  }

  /** artifactAuthenticatedData, before its UTF-8 encoding. */
  function AuthenticatedData(m: Metadata): Text { Print(AadJson(m)) }

  /** The metadata an encrypted object is bound to. */
  datatype Protected = Protected(
    reference: ContentReference, scope: Scope, redaction: Redaction, retainForever: bool, expiresAt: Text)

  function ProtectedFields(m: Metadata): Protected {
    Protected(m.contentReference, m.scope, m.redaction, m.retention.Retain?,
              if m.retention.Expire? then m.retention.expiresAt.text else [])
  }

  // ---------------------------------------------------------------- the object format

  function FormatObject(s: Sealed): Bytes { MAGIC + s.tag + s.ciphertext }

  function ParseObject(bytes: Bytes): Option<Sealed> {
    if |bytes| <= |MAGIC| + TAG_BYTES || bytes[..|MAGIC|] != MAGIC then None
    else Some(Sealed(bytes[|MAGIC| + TAG_BYTES..], bytes[|MAGIC|..|MAGIC| + TAG_BYTES]))
  }

  function DataKey(c: Crypto, plan: Plan, aad: Text): Option<Bytes> {
    match c.unwrap(plan.wrappedKey, aad)
    case None => None
    case Some(key) => if |key| == DATA_KEY_BYTES then Some(key) else None
  }

  function Encrypt(c: Crypto, m: Metadata, plan: Plan, plaintext: Bytes): Result<EncryptedObject, CryptoError> {
    if |plaintext| != m.contentReference.sizeBytes || c.hash(plaintext) != m.contentReference.sha256 then
      Err(ContentMismatch)
    else if !ValidMetadata(m) then Err(Protection)
    else
      var aad := AuthenticatedData(m);
      match DataKey(c, plan, aad)
      case None => Err(Protection)
      case Some(key) =>
        var bytes := FormatObject(c.seal(key, plan.contentNonce, aad, plaintext));
        Ok(EncryptedObject(bytes, ReceiptOf(c, bytes)))
  }

  function Decrypt(c: Crypto, m: Metadata, plan: Plan, bytes: Bytes): Result<Bytes, CryptoError> {
    if !ValidMetadata(m) then Err(Protection)
    else
      var aad := AuthenticatedData(m);
      match ParseObject(bytes)
      case None => Err(Protection)
      case Some(s) =>
        match DataKey(c, plan, aad)
        case None => Err(Protection)
        case Some(key) =>
          match c.open(key, plan.contentNonce, aad, s)
          case None => Err(Protection)
          case Some(p) =>
            if |p| != m.contentReference.sizeBytes || c.hash(p) != m.contentReference.sha256 then Err(Protection)
            else Ok(p)
  }

  function CreatePlan(c: Crypto, m: Metadata, dataKey: Bytes, nonce: Bytes): (plan: Plan)
    ensures Ideal(c) && |dataKey| == DATA_KEY_BYTES ==> DataKey(c, plan, AuthenticatedData(m)) == Some(dataKey)
  {
    Plan(nonce, c.wrap(dataKey, AuthenticatedData(m)))
  }

  // ---------------------------------------------------------------- authenticated data is faithful

  function Undecimal(t: Text): int {
    if t == [] then 0 else 10 * Undecimal(t[..|t| - 1]) + (t[|t| - 1] as int - 0x30)
  }

  lemma {:induction false} DecimalFaithful(n: nat)
    ensures NumberToken(Decimal(n)) && Undecimal(Decimal(n)) == n
    ensures forall i | 0 <= i < |Decimal(n)| :: Digit(Decimal(n)[i])
  {
    var t := Decimal(n);
    if n < 10 {
      assert t[..0] == [];
    } else {
      DecimalFaithful(n / 10);
      assert t[..|t| - 1] == Decimal(n / 10);
    }
  }

  lemma StageTextInjective(a: Stage, b: Stage)
    requires StageText(a) == StageText(b)
    ensures a == b
  {
    assert |"source"| == 6 && |"ingest"| == 6 && |"retention"| == 9;
    assert StageText(Source)[0] == 0x73 && StageText(Ingest)[0] == 0x69;
  }

  lemma RecordJsonInjective(a: RedactionRecord, b: RedactionRecord)
    requires RecordJson(a) == RecordJson(b)
    ensures a == b
  {
    var f, g := RecordJson(a).fields, RecordJson(b).fields;
    assert f[0] == g[0] && f[1] == g[1] && f[2] == g[2] && f[3] == g[3] && f[4] == g[4];
    DecimalFaithful(a.matchCount);
    DecimalFaithful(b.matchCount);
    StageTextInjective(a.stage, b.stage);
    var s, t := Texts(a.changedPaths), Texts(b.changedPaths);
    assert s == t;
    assert forall i | 0 <= i < |s| :: s[i] == t[i];
    assert a.changedPaths == b.changedPaths;
  }

  lemma RedactionJsonInjective(a: Redaction, b: Redaction)
    requires RedactionJson(a) == RedactionJson(b)
    ensures a == b
  {
    var f, g := RedactionJson(a).fields, RedactionJson(b).fields;
    assert |f| == |g| && f[0] == g[0];
    assert |Ascii("not_performed")| == 13 && |Ascii("not_required")| == 12;
    assert a.Applied? == b.Applied?;
    if a.Applied? && b.Applied? {
      var s, t := RecordsJson(a.records), RecordsJson(b.records);
      assert s == t;
      forall i | 0 <= i < |s| ensures a.records[i] == b.records[i] {
        assert s[i] == t[i];
        RecordJsonInjective(a.records[i], b.records[i]);
      }
      assert a.records == b.records;
    }
  }

  lemma RetentionJsonInjective(a: Retention, b: Retention)
    requires RetentionJson(a) == RetentionJson(b)
    ensures a.Retain? == b.Retain? && (a.Expire? ==> a.expiresAt.text == b.expiresAt.text)
  {
    assert RetentionJson(a).fields[0] == RetentionJson(b).fields[0];
  }

  lemma AadJsonInjective(a: Metadata, b: Metadata)
    requires AadJson(a) == AadJson(b)
    requires a.contentReference.redactedAt == LatestStage(a.redaction)
    requires b.contentReference.redactedAt == LatestStage(b.redaction)
    ensures ProtectedFields(a) == ProtectedFields(b)
  {
    var f, g := AadJson(a).fields, AadJson(b).fields;
    assert f[0] == g[0] && f[1] == g[1] && f[2] == g[2] && f[3] == g[3] && f[4] == g[4] && f[5] == g[5];
    assert f[6] == g[6] && f[8] == g[8] && f[9] == g[9] && f[10] == g[10];
    DecimalFaithful(a.contentReference.sizeBytes);
    DecimalFaithful(b.contentReference.sizeBytes);
    RedactionJsonInjective(a.redaction, b.redaction);
    RetentionJsonInjective(a.retention, b.retention);
  }

  lemma RecordJsonPlain(r: RedactionRecord)
    ensures Finite(RecordJson(r)) && Numeric(RecordJson(r))
  {
    DecimalFaithful(r.matchCount);
    assert Finite(Arr(Texts(r.changedPaths))) && Numeric(Arr(Texts(r.changedPaths)));
  }

  lemma RedactionJsonPlain(redaction: Redaction)
    ensures Finite(RedactionJson(redaction)) && Numeric(RedactionJson(redaction))
  {
    if redaction.Applied? {
      forall i | 0 <= i < |redaction.records| { RecordJsonPlain(redaction.records[i]); }
      assert Finite(Arr(RecordsJson(redaction.records))) && Numeric(Arr(RecordsJson(redaction.records)));
    }
  }

  lemma AadJsonPlain(m: Metadata)
    ensures Finite(AadJson(m)) && Numeric(AadJson(m))
  {
    DecimalFaithful(m.contentReference.sizeBytes);
    RedactionJsonPlain(m.redaction);
    assert Finite(RetentionJson(m.retention)) && Numeric(RetentionJson(m.retention));
  }

  /**
    Two valid records have the same authenticated data exactly when they agree on every protected
    field; in particular no lifecycle timestamp and no state enters it.
   */
  lemma AuthenticatedDataExact(a: Metadata, b: Metadata)
    requires ValidMetadata(a) && ValidMetadata(b)
    ensures AuthenticatedData(a) == AuthenticatedData(b) <==> ProtectedFields(a) == ProtectedFields(b)
  {
    if AuthenticatedData(a) == AuthenticatedData(b) {
      AadJsonPlain(a);
      AadJsonPlain(b);
      PrintInjective(AadJson(a), AadJson(b));
      AadJsonInjective(a, b);
    }
  }

  // ---------------------------------------------------------------- what is authenticated, by name

  predicate Has(v: Value, name: string, x: Value) { v.Obj? && Entry(Ascii(name), x) in v.fields }

  predicate ShowsRecord(v: Value, r: RedactionRecord) {
    && v.Obj? && |v.fields| == 5
    && Has(v, "rulesetId", Str(r.rulesetId)) && Has(v, "rulesetVersion", Str(r.rulesetVersion))
    && Has(v, "matchCount", Number(Decimal(r.matchCount))) && Has(v, "changedPaths", Arr(Texts(r.changedPaths)))
    && (r.stage.Source? ==> Has(v, "stage", Str(Ascii("source"))))
    && (r.stage.Ingest? ==> Has(v, "stage", Str(Ascii("ingest"))))
    && (r.stage.RetentionStage? ==> Has(v, "stage", Str(Ascii("retention"))))
  }

  ghost predicate ShowsRedaction(v: Value, redaction: Redaction) {
    && v.Obj?
    && (redaction.NotPerformed? ==> |v.fields| == 1 && Has(v, "status", Str(Ascii("not_performed"))))
    && (redaction.NotRequired? ==> |v.fields| == 1 && Has(v, "status", Str(Ascii("not_required"))))
    && (redaction.Applied? ==>
          && |v.fields| == 2 && Has(v, "status", Str(Ascii("applied")))
          && exists rs ::
               && Has(v, "records", Arr(rs)) && |rs| == |redaction.records|
               && forall i | 0 <= i < |rs| :: ShowsRecord(rs[i], redaction.records[i]))
  }

  predicate ShowsRetention(v: Value, retention: Retention) {
    && v.Obj?
    && (retention.Retain? ==> |v.fields| == 1 && Has(v, "mode", Str(Ascii("retain"))))
    && (retention.Expire? ==>
          |v.fields| == 2 && Has(v, "mode", Str(Ascii("expire"))) && Has(v, "expiresAt", Str(retention.expiresAt.text)))
  }

  ghost predicate ShowsMetadata(v: Value, m: Metadata) {
    && ShowsPlain(v, m) && |v.fields| == 12
    && (exists r :: Has(v, "redaction", r) && ShowsRedaction(r, m.redaction))
    && (exists r :: Has(v, "retention", r) && ShowsRetention(r, m.retention))
  }

  predicate ShowsPlain(v: Value, m: Metadata) {
    && v.Obj?
    && Has(v, "tenantId", Str(m.scope.tenantId)) && Has(v, "projectId", Str(m.scope.projectId))
    && Has(v, "environmentId", Str(m.scope.environmentId))
    && Has(v, "artifactId", Str(m.contentReference.artifactId)) && Has(v, "sha256", Str(m.contentReference.sha256))
    && Has(v, "sizeBytes", Number(Decimal(m.contentReference.sizeBytes)))
    && Has(v, "classification", Str(m.contentReference.classification)) && Has(v, "mediaType", Str(m.contentReference.mediaType))
    && Has(v, "schemaVersion", Str(Ascii("0.1"))) && Has(v, "version", Str(Ascii("proofstack-artifact-aad-v1")))
  }

  lemma RecordShown(r: RedactionRecord)
    ensures ShowsRecord(RecordJson(r), r)
  {
    var f := RecordJson(r).fields;
    assert f[0] in f && f[1] in f && f[2] in f && f[3] in f && f[4] in f;
  }

  lemma RedactionShown(redaction: Redaction)
    ensures ShowsRedaction(RedactionJson(redaction), redaction)
  {
    var v := RedactionJson(redaction);
    assert v.fields[0] in v.fields;
    if redaction.Applied? {
      var rs := RecordsJson(redaction.records);
      assert v.fields[1] in v.fields && Has(v, "records", Arr(rs));
      forall i | 0 <= i < |rs| ensures ShowsRecord(rs[i], redaction.records[i]) { RecordShown(redaction.records[i]); }
    }
  }

  lemma PlainShown(m: Metadata)
    ensures ShowsPlain(AadJson(m), m)
  {
    var f := AadJson(m).fields;
    assert f[0] in f && f[1] in f && f[2] in f && f[3] in f && f[4] in f;
    assert f[7] in f && f[8] in f && f[9] in f && f[10] in f && f[11] in f;
  }

  lemma NestedShown(m: Metadata)
    ensures Has(AadJson(m), "redaction", RedactionJson(m.redaction)) && ShowsRedaction(RedactionJson(m.redaction), m.redaction)
    ensures Has(AadJson(m), "retention", RetentionJson(m.retention)) && ShowsRetention(RetentionJson(m.retention), m.retention)
    ensures |AadJson(m).fields| == 12
  {
    RedactionShown(m.redaction);
    var f := AadJson(m).fields;
    assert f[5] in f && f[6] in f;
  }

  /**
    Whatever value the authenticated text is read back as, it holds these twelve properties with
    these values and no other: what a ciphertext is bound to, by name.
   */
  lemma AuthenticatedByName(m: Metadata, v: Value)
    requires Finite(v) && Numeric(v) && Print(v) == AuthenticatedData(m)
    ensures ShowsMetadata(v, m)
  {
    AadJsonPlain(m);
    PrintInjective(v, AadJson(m));
    PlainShown(m);
    NestedShown(m);
  }

  // ---------------------------------------------------------------- encryption and decryption

  /** A printed object parses back to its tag and ciphertext, and only printed objects parse. */
  lemma ObjectRoundTrip(s: Sealed, bytes: Bytes)
    requires |s.tag| == TAG_BYTES && s.ciphertext != []
    ensures ParseObject(bytes) == Some(s) <==> bytes == FormatObject(s)
    ensures |FormatObject(s)| == |s.ciphertext| + OBJECT_OVERHEAD
  {
    var f := FormatObject(s);
    assert f[..|MAGIC|] == MAGIC && f[|MAGIC|..|MAGIC| + TAG_BYTES] == s.tag && f[|MAGIC| + TAG_BYTES..] == s.ciphertext;
    if ParseObject(bytes) == Some(s) {
      assert bytes == bytes[..|MAGIC|] + bytes[|MAGIC|..|MAGIC| + TAG_BYTES] + bytes[|MAGIC| + TAG_BYTES..];
    }
  }

  /** An object is four fixed bytes, sixteen bytes of tag and the ciphertext, which is never empty. */
  lemma ObjectLayout(bytes: Bytes, tag: Bytes, ciphertext: Bytes)
    ensures ParseObject(bytes) == Some(Sealed(ciphertext, tag)) <==>
            |tag| == 16 && ciphertext != [] && bytes == [0x50, 0x53, 0x41, 0x31] + tag + ciphertext
  {
    if |tag| == 16 && ciphertext != [] {
      ObjectRoundTrip(Sealed(ciphertext, tag), bytes);
    }
  }

  predicate ContentOf(c: Crypto, m: Metadata, plaintext: Bytes) {
    |plaintext| == m.contentReference.sizeBytes && c.hash(plaintext) == m.contentReference.sha256
  }

  /**
    Decryption under any valid metadata with the same protected fields returns exactly the content
    that was encrypted, and nothing but an encryption of that content decrypts to it.
   */
  lemma DecryptExactly(c: Crypto, m: Metadata, later: Metadata, plan: Plan, plaintext: Bytes, bytes: Bytes)
    requires Ideal(c) && ValidMetadata(m) && ValidMetadata(later) && ProtectedFields(m) == ProtectedFields(later)
    ensures Decrypt(c, later, plan, bytes) == Ok(plaintext) <==>
            Encrypt(c, m, plan, plaintext) == Ok(EncryptedObject(bytes, ReceiptOf(c, bytes)))
    ensures Decrypt(c, later, plan, bytes).Ok? ==> |bytes| == m.contentReference.sizeBytes + OBJECT_OVERHEAD
    ensures Decrypt(c, later, plan, bytes).Err? ==> Decrypt(c, later, plan, bytes).error == Protection
  {
    AuthenticatedDataExact(m, later);
    var aad := AuthenticatedData(m);
    match DataKey(c, plan, aad) {
      case None =>
      case Some(key) =>
        var s := c.seal(key, plan.contentNonce, aad, plaintext);
        if plaintext != [] { ObjectRoundTrip(s, bytes); }
        match ParseObject(bytes) {
          case None =>
          case Some(t) =>
            assert c.open(key, plan.contentNonce, aad, t) == Some(plaintext) <==> s == t;
            match c.open(key, plan.contentNonce, aad, t) {
              case None =>
              case Some(p) =>
                assert c.seal(key, plan.contentNonce, aad, p) == t;
            }
        }
    }
  }

  /** The reserved digest leaves room for one content only, and so for one ciphertext. */
  lemma OneCiphertext(c: Crypto, m: Metadata, later: Metadata, plan: Plan, a: Bytes, b: Bytes)
    requires Ideal(c) && ValidMetadata(m) && ValidMetadata(later) && ProtectedFields(m) == ProtectedFields(later)
    requires Encrypt(c, m, plan, a).Ok? && Encrypt(c, later, plan, b).Ok?
    ensures a == b && Encrypt(c, m, plan, a) == Encrypt(c, later, plan, b)
  {
    AuthenticatedDataExact(m, later);
    assert c.hash(a) == c.hash(b);
  }

  /** Content that decrypts is the reserved content, so two objects that decrypt are one. */
  lemma OneObject(c: Crypto, m: Metadata, later: Metadata, plan: Plan, x: Bytes, y: Bytes)
    requires Ideal(c) && ValidMetadata(m) && ValidMetadata(later) && ProtectedFields(m) == ProtectedFields(later)
    requires Decrypt(c, m, plan, x).Ok? && Decrypt(c, later, plan, y).Ok?
    ensures x == y && Decrypt(c, m, plan, x) == Decrypt(c, later, plan, y)
  {
    var p, q := Decrypt(c, m, plan, x).value, Decrypt(c, later, plan, y).value;
    DecryptExactly(c, m, m, plan, p, x);
    DecryptExactly(c, later, later, plan, q, y);
    OneCiphertext(c, m, later, plan, p, q);
  }

  /** A key and nonce made for a reservation never fail it: only other content is refused. */
  lemma PlannedEncryption(c: Crypto, m: Metadata, later: Metadata, dataKey: Bytes, nonce: Bytes, plaintext: Bytes)
    requires Ideal(c) && |dataKey| == DATA_KEY_BYTES
    requires ValidMetadata(m) && ValidMetadata(later) && ProtectedFields(m) == ProtectedFields(later)
    ensures Encrypt(c, later, CreatePlan(c, m, dataKey, nonce), plaintext).Ok? <==> ContentOf(c, m, plaintext)
    ensures Encrypt(c, later, CreatePlan(c, m, dataKey, nonce), plaintext) == Err(ContentMismatch) <==> !ContentOf(c, m, plaintext)
  {
    AuthenticatedDataExact(m, later);
  }

  /** The assumptions are consistent: one record of primitives that meets all of them. */
  function Transparent(): Crypto {
    Crypto(
      (p: Bytes) => seq(|p|, i requires 0 <= i < |p| => p[i] as Unit),
      (k: Bytes, n: Bytes, a: Text, p: Bytes) => Sealed(p, seq(TAG_BYTES, _ => 0)),
      (k: Bytes, n: Bytes, a: Text, s: Sealed) => if s.tag == seq(TAG_BYTES, _ => 0) then Some(s.ciphertext) else None,
      (k: Bytes, a: Text) => k,
      (w: Bytes, a: Text) => Some(w))
  }

  lemma IdealIsConsistent()
    ensures Ideal(Transparent())
  {
    var c := Transparent();
    forall p, q | c.hash(p) == c.hash(q) ensures p == q {
      var h, g := c.hash(p), c.hash(q);
      assert |h| == |p| && |g| == |q|;
      forall i | 0 <= i < |p| ensures p[i] == q[i] { assert h[i] == g[i]; }
    }
  }
}
