/**
  Canonical base64url (RFC 4648, sections 3.5 and 5) and the checks for it in the repository.
  Four of them decode a string, count the bytes and encode them again; two are regular expressions.

  The decoder of the platform is lenient and is not part of this model: each decoding check takes
  any decoder that undoes the encoder.
 */
module Base64Url {
  import opened Envelope

  newtype Sextet = d: int | 0 <= d < 64

  // ---------------------------------------------------------------- bytes and sextets

  /** The four sextets of three bytes. */
  function Unpack(b0: Byte, b1: Byte, b2: Byte): (d: seq<Sextet>)
    ensures |d| == 4
  {
    var x, y, z := b0 as int, b1 as int, b2 as int;
    [(x / 4) as Sextet, (x % 4 * 16 + y / 16) as Sextet, (y % 16 * 4 + z / 64) as Sextet, (z % 64) as Sextet]
  }

  function Pack(d0: Sextet, d1: Sextet, d2: Sextet, d3: Sextet): (b: Bytes)
    ensures |b| == 3
  {
    var p, q, r, t := d0 as int, d1 as int, d2 as int, d3 as int;
    [(p * 4 + q / 16) as Byte, (q % 16 * 16 + r / 4) as Byte, (r % 4 * 64 + t) as Byte]
  }

  function EncodeSextets(b: Bytes): seq<Sextet> {
    if b == [] then []
    else if |b| == 1 then Unpack(b[0], 0, 0)[..2]
    else if |b| == 2 then Unpack(b[0], b[1], 0)[..3]
    else Unpack(b[0], b[1], b[2]) + EncodeSextets(b[3..])
  }

  /** Length of the text of `n` bytes, as the artifact reader computes it. */
  function EncodedLength(n: nat): nat { (n * 4 + 2) / 3 }

  /** The bits of the last sextet that belong to no byte are zero. */
  predicate SpareBitsZero(last: Sextet, residue: nat) {
    (residue == 1 ==> last % 16 == 0) && (residue == 2 ==> last % 4 == 0)
  }

  predicate CanonicalSextets(d: seq<Sextet>, n: nat) {
    |d| == EncodedLength(n) && (d != [] ==> SpareBitsZero(d[|d| - 1], n % 3))
  }

  function DecodeSextets(d: seq<Sextet>, n: nat): (b: Bytes)
    requires CanonicalSextets(d, n)
    ensures |b| == n
    decreases n
  {
    LengthStep(n);
    if n == 0 then []
    else if n == 1 then Pack(d[0], d[1], 0, 0)[..1]
    else if n == 2 then Pack(d[0], d[1], d[2], 0)[..2]
    else
      TailCanonical(d, n);
      Pack(d[0], d[1], d[2], d[3]) + DecodeSextets(d[4..], n - 3)
  }

  lemma LengthStep(n: nat)
    ensures EncodedLength(n + 3) == EncodedLength(n) + 4 && (n + 3) % 3 == n % 3
    ensures n > 0 ==> EncodedLength(n) > n
  {
  }

  lemma TailCanonical(d: seq<Sextet>, n: nat)
    requires CanonicalSextets(d, n) && n >= 3
    ensures |d| >= 4 && CanonicalSextets(d[4..], n - 3)
  {
    LengthStep(n - 3);
  }

  lemma UnpackPacks(b0: Byte, b1: Byte, b2: Byte)
    ensures var d := Unpack(b0, b1, b2); Pack(d[0], d[1], d[2], d[3]) == [b0, b1, b2]
  {
    var x, y, z := b0 as int, b1 as int, b2 as int;
    assert (x % 4 * 16 + y / 16) / 16 == x % 4 && (x % 4 * 16 + y / 16) % 16 == y / 16;
    assert (y % 16 * 4 + z / 64) / 4 == y % 16 && (y % 16 * 4 + z / 64) % 4 == z / 64;
  }

  lemma PackUnpacks(d0: Sextet, d1: Sextet, d2: Sextet, d3: Sextet)
    ensures var b := Pack(d0, d1, d2, d3); Unpack(b[0], b[1], b[2]) == [d0, d1, d2, d3]
  {
    var p, q, r, t := d0 as int, d1 as int, d2 as int, d3 as int;
    assert (p * 4 + q / 16) / 4 == p && (p * 4 + q / 16) % 4 == q / 16;
    assert (q % 16 * 16 + r / 4) / 16 == q % 16 && (q % 16 * 16 + r / 4) % 16 == r / 4;
    assert (r % 4 * 64 + t) / 64 == r % 4 && (r % 4 * 64 + t) % 64 == t;
  }

  lemma SpareBits(x: Byte, y: Byte)
    ensures Unpack(x, 0, 0)[1] % 16 == 0 && Unpack(x, 0, 0)[2] == 0 && Unpack(x, 0, 0)[3] == 0
    ensures Unpack(x, y, 0)[2] % 4 == 0 && Unpack(x, y, 0)[3] == 0
  {
  }

  lemma OneByteEncoding(x: Byte)
    ensures CanonicalSextets(Unpack(x, 0, 0)[..2], 1) && DecodeSextets(Unpack(x, 0, 0)[..2], 1) == [x]
  {
    UnpackPacks(x, 0, 0);
    SpareBits(x, 0);
  }

  lemma TwoByteEncoding(x: Byte, y: Byte)
    ensures CanonicalSextets(Unpack(x, y, 0)[..3], 2) && DecodeSextets(Unpack(x, y, 0)[..3], 2) == [x, y]
  {
    UnpackPacks(x, y, 0);
    SpareBits(x, y);
  }

  /** Three bytes in front of a canonical encoding. */
  lemma GroupEncoding(x: Byte, y: Byte, z: Byte, rest: seq<Sextet>, n: nat)
    requires CanonicalSextets(rest, n)
    ensures CanonicalSextets(Unpack(x, y, z) + rest, n + 3)
    ensures DecodeSextets(Unpack(x, y, z) + rest, n + 3) == [x, y, z] + DecodeSextets(rest, n)
  {
    LengthStep(n);
    UnpackPacks(x, y, z);
    var g := Unpack(x, y, z);
    assert (g + rest)[4..] == rest;
  }

  lemma {:induction false} EncodingDecodes(b: Bytes)
    ensures CanonicalSextets(EncodeSextets(b), |b|) && DecodeSextets(EncodeSextets(b), |b|) == b
  {
    if |b| == 1 {
      OneByteEncoding(b[0]);
      assert b == [b[0]];
    } else if |b| == 2 {
      TwoByteEncoding(b[0], b[1]);
      assert b == [b[0], b[1]];
    } else if |b| >= 3 {
      EncodingDecodes(b[3..]);
      GroupEncoding(b[0], b[1], b[2], EncodeSextets(b[3..]), |b| - 3);
      assert b == [b[0], b[1], b[2]] + b[3..];
    }
  }

  lemma {:induction false} DecodingEncodes(d: seq<Sextet>, n: nat)
    requires CanonicalSextets(d, n)
    ensures EncodeSextets(DecodeSextets(d, n)) == d
    decreases n
  {
    LengthStep(n);
    if n == 1 {
      PackUnpacks(d[0], d[1], 0, 0);
      assert Pack(d[0], d[1], 0, 0)[1] == 0 && Pack(d[0], d[1], 0, 0)[2] == 0;
    } else if n == 2 {
      PackUnpacks(d[0], d[1], d[2], 0);
      assert Pack(d[0], d[1], d[2], 0)[2] == 0;
    } else if n >= 3 {
      TailCanonical(d, n);
      DecodingEncodes(d[4..], n - 3);
      PackUnpacks(d[0], d[1], d[2], d[3]);
      var g, t := Pack(d[0], d[1], d[2], d[3]), DecodeSextets(d[4..], n - 3);
      assert (g + t)[3..] == t;
      assert d == [d[0], d[1], d[2], d[3]] + d[4..];
    }
  }

  // ---------------------------------------------------------------- sextets and characters

  predicate InAlphabet(c: char) {
    'A' <= c <= 'Z' || 'a' <= c <= 'z' || '0' <= c <= '9' || c == '-' || c == '_'
  }

  predicate AlphabetOnly(s: string) { forall i | 0 <= i < |s| :: InAlphabet(s[i]) }

  function Character(d: Sextet): (c: char)
    ensures InAlphabet(c) && Digit64(c) == d
  {
    if d < 26 then 'A' + d as char
    else if d < 52 then 'a' + (d - 26) as char
    else if d < 62 then '0' + (d - 52) as char
    else if d == 62 then '-'
    else '_'
  }

  function Digit64(c: char): (d: Sextet)
    requires InAlphabet(c)
  {
    if 'A' <= c <= 'Z' then (c as int - 'A' as int) as Sextet
    else if 'a' <= c <= 'z' then (c as int - 'a' as int + 26) as Sextet
    else if '0' <= c <= '9' then (c as int - '0' as int + 52) as Sextet
    else if c == '-' then 62
    else 63
  }

  lemma CharacterOfDigit(c: char)
    requires InAlphabet(c)
    ensures Character(Digit64(c)) == c
  {
  }

  function Characters(d: seq<Sextet>): (s: string)
    ensures |s| == |d| && AlphabetOnly(s)
  {
    seq(|d|, i requires 0 <= i < |d| => Character(d[i]))
  }

  function Digits(s: string): (d: seq<Sextet>)
    requires AlphabetOnly(s)
    ensures |d| == |s| && forall i | 0 <= i < |s| :: d[i] == Digit64(s[i])
  {
    seq(|s|, i requires 0 <= i < |s| => Digit64(s[i]))
  }

  lemma CharactersBijective(d: seq<Sextet>, s: string)
    ensures Digits(Characters(d)) == d
    ensures AlphabetOnly(s) ==> Characters(Digits(s)) == s
  {
    if AlphabetOnly(s) {
      forall i | 0 <= i < |s| ensures Characters(Digits(s))[i] == s[i] { CharacterOfDigit(s[i]); }
    }
  }

  // ---------------------------------------------------------------- canonical texts are the encodings

  /** Base64url without padding. */
  function Encode(b: Bytes): string { Characters(EncodeSextets(b)) }

  /**
    What makes a text canonical for `n` bytes: its length, its alphabet, and zeros in the bits of
    the last character that belong to no byte.
   */
  predicate IsCanonical(s: string, n: nat) {
    && |s| == EncodedLength(n)
    && AlphabetOnly(s)
    && (s != [] ==> SpareBitsZero(Digit64(s[|s| - 1]), n % 3))
  }

  /** The bytes a canonical text stands for. */
  function Decode(s: string, n: nat): (b: Bytes)
    requires IsCanonical(s, n)
    ensures |b| == n
  {
    DecodeSextets(Digits(s), n)
  }

  lemma DecodeRoundTrip(s: string, n: nat)
    requires IsCanonical(s, n)
    ensures Encode(Decode(s, n)) == s
  {
    DecodingEncodes(Digits(s), n);
    CharactersBijective([], s);
  }

  lemma EncodeCanonical(b: Bytes)
    ensures IsCanonical(Encode(b), |b|) && Decode(Encode(b), |b|) == b
  {
    EncodingDecodes(b);
    CharactersBijective(EncodeSextets(b), []);
    var d, s := EncodeSextets(b), Encode(b);
    if s != [] { assert Digits(s)[|s| - 1] == d[|d| - 1]; }
  }

  /** The canonical texts for `n` bytes and the byte strings of length `n` are in bijection. */
  lemma CanonicalExactly(s: string, n: nat)
    ensures IsCanonical(s, n) <==> exists b :: |b| == n && Encode(b) == s
    ensures forall a, b :: |a| == |b| && Encode(a) == Encode(b) ==> a == b
  {
    if IsCanonical(s, n) { DecodeRoundTrip(s, n); }
    forall b | |b| == n && Encode(b) == s ensures IsCanonical(s, n) { EncodeCanonical(b); }
    forall a, b | |a| == |b| && Encode(a) == Encode(b) ensures a == b {
      EncodeCanonical(a);
      EncodeCanonical(b);
    }
  }

  // ---------------------------------------------------------------- the checks of the repository

  type Decoder = string -> Bytes

  /** All that is needed of `Buffer.from(value, "base64url")`. */
  ghost predicate UndoesEncode(decode: Decoder) { forall b :: decode(Encode(b)) == b }

  /** decodeBase64Url of the artifact cipher: the pattern needs at least one character. */
  predicate CipherAccepts(decode: Decoder, s: string, size: nat) {
    s != [] && AlphabetOnly(s) && |decode(s)| == size && Encode(decode(s)) == s
  }

  /** base64 of the policy reader: no pattern, but the length is checked first. */
  predicate ReaderAccepts(decode: Decoder, s: string, size: nat) {
    |s| == EncodedLength(size) && |decode(s)| == size && Encode(decode(s)) == s
  }

  /** EncodedArtifactKeySchema. */
  predicate ArtifactKeyAccepts(decode: Decoder, s: string) {
    s != [] && AlphabetOnly(s) && |decode(s)| == 32 && Encode(decode(s)) == s
  }

  /** transactionSecret: exactly 43 alphabet characters, then the decoding check. */
  predicate TransactionSecretAccepts(decode: Decoder, s: string) {
    |s| == 43 && AlphabetOnly(s) && |decode(s)| == 32 && Encode(decode(s)) == s
  }

  /** `[A-Za-z0-9_-]{42}[AEIMQUYcgkosw048]`, of OidcStateSchema and the secret part of an API key. */
  predicate SecretPattern(s: string) {
    |s| == 43 && AlphabetOnly(s[..42]) && ClosingCharacter(s[42])
  }

  predicate ClosingCharacter(c: char) { c in "AEIMQUYcgkosw048" }

  lemma LastCharacterClass(c: char)
    ensures ClosingCharacter(c) <==> InAlphabet(c) && Digit64(c) % 4 == 0
  {
    if InAlphabet(c) && Digit64(c) % 4 == 0 { SpareFreeCloses(c); }
  }

  lemma SpareFreeCloses(c: char)
    requires InAlphabet(c) && Digit64(c) % 4 == 0
    ensures ClosingCharacter(c)
  {
    assert "AEIMQUYcgkosw048"[Digit64(c) / 4] == c;
  }

  /** A decoding check on text of some size accepts exactly the canonical texts of that size. */
  lemma DecodingCheckExact(decode: Decoder, s: string, size: nat)
    requires UndoesEncode(decode)
    ensures |decode(s)| == size && Encode(decode(s)) == s <==> IsCanonical(s, size)
  {
    if IsCanonical(s, size) {
      DecodeRoundTrip(s, size);
      assert decode(Encode(Decode(s, size))) == Decode(s, size);
    } else if |decode(s)| == size && Encode(decode(s)) == s {
      EncodeCanonical(decode(s));
    }
  }

  /** The sizes that stored plans and keys are decoded with: nonces, tags and data keys. */
  const USED_SIZES := {12, 16, 32}

  /** For every size in use the cipher and the policy reader accept exactly the canonical texts. */
  lemma CipherAndReaderAgree(decode: Decoder, size: nat, s: string)
    requires UndoesEncode(decode) && size in USED_SIZES
    ensures CipherAccepts(decode, s, size) <==> IsCanonical(s, size)
    ensures ReaderAccepts(decode, s, size) <==> IsCanonical(s, size)
  {
    CipherAndReaderAgreeExactly(decode, size);
  }

  /** Of all sizes only zero would tell them apart: one wants at least one character. */
  lemma CipherAndReaderAgreeExactly(decode: Decoder, size: nat)
    requires UndoesEncode(decode)
    ensures (forall s :: CipherAccepts(decode, s, size) <==> ReaderAccepts(decode, s, size)) <==> size > 0
    ensures size > 0 ==> forall s :: CipherAccepts(decode, s, size) <==> IsCanonical(s, size)
    ensures forall s :: ReaderAccepts(decode, s, size) <==> IsCanonical(s, size)
  {
    forall s
      ensures ReaderAccepts(decode, s, size) <==> IsCanonical(s, size)
      ensures CipherAccepts(decode, s, size) <==> s != [] && IsCanonical(s, size)
      ensures size > 0 && IsCanonical(s, size) ==> s != []
    {
      DecodingCheckExact(decode, s, size);
    }
    if size == 0 {
      var empty: string := [];
      assert IsCanonical(empty, 0);
      assert ReaderAccepts(decode, empty, 0) && !CipherAccepts(decode, empty, 0);
    }
  }

  lemma PatternIsCanonical(s: string)
    ensures SecretPattern(s) <==> IsCanonical(s, 32)
  {
    if |s| == 43 {
      LastCharacterClass(s[42]);
      assert s == s[..42] + [s[42]];
    }
  }

  /** For 32 bytes the configuration checks and the two patterns accept one and the same set. */
  lemma ThirtyTwoByteChecksAgree(decode: Decoder, s: string)
    requires UndoesEncode(decode)
    ensures ArtifactKeyAccepts(decode, s) <==> SecretPattern(s)
    ensures TransactionSecretAccepts(decode, s) <==> SecretPattern(s)
    ensures CipherAccepts(decode, s, 32) <==> SecretPattern(s)
    ensures ReaderAccepts(decode, s, 32) <==> SecretPattern(s)
    ensures SecretPattern(s) <==> exists b :: |b| == 32 && Encode(b) == s
  {
    DecodingCheckExact(decode, s, 32);
    PatternIsCanonical(s);
    CanonicalExactly(s, 32);
  }

  // ---------------------------------------------------------------- the published tables

  const UPPER := "ABCDEFGHIJKLMNOPQRSTUVWXYZ"
  const LOWER := "abcdefghijklmnopqrstuvwxyz"
  const NUMERALS := "0123456789"

  /** Table 2 of RFC 4648. */
  const ALPHABET := UPPER + LOWER + NUMERALS + "-_"

  lemma UpperOf(i: nat)
    requires i < 26
    ensures UPPER[i] == 'A' + i as char
  {
  }

  lemma LowerOf(i: nat)
    requires i < 26
    ensures LOWER[i] == 'a' + i as char
  {
  }

  lemma NumeralOf(i: nat)
    requires i < 10
    ensures NUMERALS[i] == '0' + i as char
  {
  }

  lemma CharacterFromTable(d: Sextet)
    ensures |ALPHABET| == 64 && Character(d) == ALPHABET[d]
  {
    if d < 26 { UpperOf(d as nat); }
    else if d < 52 { LowerOf(d as nat - 26); }
    else if d < 62 { NumeralOf(d as nat - 52); }
  }

  lemma EncodeOne(x: Byte)
    ensures Encode([x]) == [Character(Unpack(x, 0, 0)[0]), Character(Unpack(x, 0, 0)[1])]
  {
  }

  lemma EncodeTwo(x: Byte, y: Byte)
    ensures var d := Unpack(x, y, 0); Encode([x, y]) == [Character(d[0]), Character(d[1]), Character(d[2])]
  {
  }

  lemma EncodeGroup(x: Byte, y: Byte, z: Byte, rest: Bytes)
    ensures var d := Unpack(x, y, z);
            Encode([x, y, z] + rest) == [Character(d[0]), Character(d[1]), Character(d[2]), Character(d[3])] + Encode(rest)
  {
    assert ([x, y, z] + rest)[3..] == rest;
  }

  /** Test vectors of RFC 4648, section 10, without their padding. */
  lemma PublishedVectors()
    ensures Encode([]) == "" && Encode([0x66]) == "Zg" && Encode([0x66, 0x6F]) == "Zm8"
    ensures Encode([0x66, 0x6F, 0x6F, 0x62, 0x61, 0x72]) == "Zm9vYmFy"
  {
    EncodeOne(0x66);
    EncodeTwo(0x66, 0x6F);
    EncodeGroup(0x66, 0x6F, 0x6F, [0x62, 0x61, 0x72]);
    EncodeGroup(0x62, 0x61, 0x72, []);
    assert [0x62, 0x61, 0x72] + [] == [0x62, 0x61, 0x72 as Byte];
    assert [0x66, 0x6F, 0x6F] + [0x62, 0x61, 0x72] == [0x66, 0x6F, 0x6F, 0x62, 0x61, 0x72 as Byte];
  }
}
