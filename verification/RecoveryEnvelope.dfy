/** The encrypted recovery envelope: a fixed prefix, a canonical JSON header, the ciphertext
    and its tag. Cryptography, base64 and JSON text are a library whose laws are hypotheses. */
module RecoveryEnvelope {
  import opened CanonicalJson
  import opened Ordering
  import opened Values

  const MAGIC: Bytes := [0x52, 0x47, 0x42, 0x4B, 0x52, 0x45, 0x43, 0x31]
  const PREFIX_BYTES := 12
  const TAG_BYTES := 16
  const SALT_BYTES := 16
  const NONCE_BYTES := 12
  const MAX_METADATA := 4096
  const MAX_HEADER := 8192
  const ABSOLUTE_MAX := 512 * 1024 * 1024

  datatype Library = Library(
    text: Json -> Bytes, parse: Bytes -> Option<Json>,
    base64: Bytes -> string, unbase64: string -> Bytes, utf8Length: string -> nat,
    key: (string, Bytes) -> Bytes,
    seal: (Bytes, Bytes, Bytes, Bytes) -> (Bytes, Bytes),
    unseal: (Bytes, Bytes, Bytes, Bytes, Bytes) -> Option<Bytes>,
    before: (string, string) -> bool)

  /** Parsing undoes printing on the canonical values a program can hold and yields only values
      it can hold, decoding undoes encoding, and opening undoes sealing, which keeps the length,
      and opens nothing else. */
  ghost predicate Sound(lib: Library) {
    && TotalOrder(lib.before)
    && (forall j :: Fixed(j, 0, lib.before) ==> lib.parse(lib.text(j)) == Some(j))
    && (forall j: Json :: j.Obj? ==> |lib.text(j)| >= 2)
    && (forall t :: lib.parse(t).Some? ==> WellFormed(lib.parse(t).value))
    && (forall b :: lib.unbase64(lib.base64(b)) == b)
    && (forall k, n, a, p :: |lib.seal(k, n, a, p).0| == |p| && |lib.seal(k, n, a, p).1| == TAG_BYTES)
    && (forall k, n, a, p :: lib.unseal(k, n, a, lib.seal(k, n, a, p).0, lib.seal(k, n, a, p).1) == Some(p))
    && (forall k, n, a, c, t :: lib.unseal(k, n, a, c, t).Some? ==>
          lib.seal(k, n, a, lib.unseal(k, n, a, c, t).value) == (c, t))
  }

  // ------------------------------------------------------------------ numbers

  function U32(n: nat): Bytes
    requires n < 0x1_0000_0000
  {
    [n / 0x100_0000, n / 0x1_0000 % 0x100, n / 0x100 % 0x100, n % 0x100]
  }

  function ReadU32(b: Bytes): nat
    requires |b| == 4
  {
    b[0] as int * 0x100_0000 + b[1] as int * 0x1_0000 + b[2] as int * 0x100 + b[3] as int
  }

  lemma Quotient(n: nat, d: nat)
    requires d == 0x100 || d == 0x1_0000
    ensures n / (0x100 * d) == n / 0x100 / d
  {
  }

  lemma ReadOfWrite(n: nat)
    requires n < 0x1_0000_0000
    ensures ReadU32(U32(n)) == n
  {
    Quotient(n, 0x100);
    Quotient(n, 0x1_0000);
    var q := n / 0x100;
    Quotient(q, 0x100);
    assert n == q * 0x100 + n % 0x100 && q == q / 0x100 * 0x100 + q % 0x100;
    assert q / 0x100 == q / 0x100 / 0x100 * 0x100 + q / 0x100 % 0x100;
  }

  lemma WriteOfRead(b: Bytes)
    requires |b| == 4
    ensures ReadU32(b) < 0x1_0000_0000 && U32(ReadU32(b)) == b
  {
    var m := ReadU32(b);
    var w: int, x: int, y: int, z: int := b[0], b[1], b[2], b[3];
    assert m == ((w * 0x100 + x) * 0x100 + y) * 0x100 + z;
    assert m / 0x100 == (w * 0x100 + x) * 0x100 + y && m % 0x100 == z;
    assert m / 0x1_0000 == w * 0x100 + x && m / 0x100 % 0x100 == y;
    assert m / 0x100_0000 == w && m / 0x1_0000 % 0x100 == x;
  }

  function Prefix(headerBytes: nat): Bytes
    requires headerBytes < 0x1_0000_0000
  {
    MAGIC + U32(headerBytes)
  }

  method EncodePrefix(headerBytes: nat) returns (prefix: array<Byte>)
    requires headerBytes < 0x1_0000_0000
    ensures fresh(prefix) && prefix[..] == Prefix(headerBytes)
  {
    prefix := new Byte[PREFIX_BYTES](_ => 0);
    for k := 0 to |MAGIC|
      invariant prefix[..k] == MAGIC[..k]
    {
      prefix[k] := MAGIC[k];
    }
    prefix[8] := headerBytes / 0x100_0000;
    prefix[9] := headerBytes / 0x1_0000 % 0x100;
    prefix[10] := headerBytes / 0x100 % 0x100;
    prefix[11] := headerBytes % 0x100;
  }

  // ------------------------------------------------------------------- header

  predicate PassphraseAccepted(passphrase: string, lib: Library) {
    |passphrase| >= 16 && lib.utf8Length(passphrase) <= 1024
  }

  predicate LimitAccepted(limit: int) { 1 <= limit <= ABSOLUTE_MAX }

  /** None where the source throws; absent or null metadata is an empty object. */
  function CanonicalMetadata(metadata: Option<Json>, lib: Library): Option<Json> {
    var c := Canonicalize(if metadata == None || metadata == Some(Null) then Obj([]) else metadata.value, 0, lib.before);
    if c.None? || !c.value.Obj? || |lib.text(c.value)| > MAX_METADATA then None else c
  }

  const HEADER_KEYS := {"cipher", "ciphertextBytes", "format", "kdf", "metadata", "nonce", "tagBytes", "version"}
  const KDF_KEYS := {"N", "name", "p", "r", "salt"}

  function BuildKdf(salt: Bytes, lib: Library): Json {
    Obj([Field("N", Num(32768)), Field("name", Str("scrypt")), Field("p", Num(1)), Field("r", Num(8)), Field("salt", Str(lib.base64(salt)))])
  }

  function BuildHeader(payloadBytes: nat, metadata: Json, salt: Bytes, nonce: Bytes, lib: Library): Json {
    Obj([
      Field("cipher", Str("aes-256-gcm")), Field("ciphertextBytes", Num(payloadBytes)),
      Field("format", Str("roomgoblin-full-recovery")), Field("kdf", BuildKdf(salt, lib)), Field("metadata", metadata),
      Field("nonce", Str(lib.base64(nonce))), Field("tagBytes", Num(16)), Field("version", Num(1))])
  }

  function Get(v: Json, key: string): Option<Json> {
    if v.Obj? then Lookup(v.fields, key) else None
  }

  predicate ExactKeys(v: Option<Json>, expected: set<string>) {
    v.Some? && v.value.Obj? && KeySet(v.value.fields) == expected
  }

  predicate KdfAccepted(v: Option<Json>) {
    && ExactKeys(v, KDF_KEYS)
    && Get(v.value, "name") == Some(Str("scrypt")) && Get(v.value, "N") == Some(Num(32768))
    && Get(v.value, "r") == Some(Num(8)) && Get(v.value, "p") == Some(Num(1))
  }

  predicate HeaderAccepted(h: Json) {
    && ExactKeys(Some(h), HEADER_KEYS) && KdfAccepted(Get(h, "kdf"))
    && Get(h, "format") == Some(Str("roomgoblin-full-recovery")) && Get(h, "version") == Some(Num(1))
    && Get(h, "cipher") == Some(Str("aes-256-gcm")) && Get(h, "tagBytes") == Some(Num(16))
  }

  function DecodeFixed(v: Option<Json>, size: nat, lib: Library): Option<Bytes> {
    if v.None? || !v.value.Str? then None
    else
      var decoded := lib.unbase64(v.value.text);
      if |decoded| != size || lib.base64(decoded) != v.value.text then None else Some(decoded)
  }

  /** `{...h, key: value}` of an object that has the key. */
  function Replace(h: Json, key: string, value: Json): Json
    requires h.Obj?
  {
    Obj(seq(|h.fields|, i requires 0 <= i < |h.fields| => if h.fields[i].key == key then Field(key, value) else h.fields[i]))
  }

  /** The canonical text the header must be, None where the source throws. */
  function CanonicalHeader(h: Json, lib: Library): Option<(Json, Json)>
    requires h.Obj?
  {
    var metadata := CanonicalMetadata(Get(h, "metadata"), lib);
    if metadata.None? then None
    else
      var canonical := Canonicalize(Replace(h, "metadata", metadata.value), 0, lib.before);
      if canonical.None? then None else Some((metadata.value, canonical.value))
  }

  // ----------------------------------------------------------------- envelopes

  datatype Parsed = Parsed(header: Json, metadata: Json, salt: Bytes, nonce: Bytes, aad: Bytes, ciphertext: Bytes, tag: Bytes)

  /** The raw header of an envelope, when its frame is in order. */
  function RawHeader(e: Bytes): Option<Bytes> {
    if |e| < PREFIX_BYTES + 2 + TAG_BYTES || e[..8] != MAGIC then None
    else
      var n := ReadU32(e[8..12]);
      if n < 2 || n > MAX_HEADER || PREFIX_BYTES + n + TAG_BYTES > |e| then None else Some(e[PREFIX_BYTES..PREFIX_BYTES + n])
  }

  /** The header announces as many bytes as there are, and no more than the limit. */
  predicate SizeAccepted(h: Json, actual: int, maxPayload: int)
    requires h.Obj?
  {
    var size := Get(h, "ciphertextBytes");
    size.Some? && size.value.Num? && 0 <= size.value.number <= maxPayload && size.value.number == actual
  }

  function Parse(e: Bytes, maxPayload: int, lib: Library): Option<Parsed> {
    var raw := RawHeader(e);
    if raw.None? then None
    else
      var end := PREFIX_BYTES + |raw.value|;
      var parsed := lib.parse(raw.value);
      if parsed.None? || !HeaderAccepted(parsed.value) || !SizeAccepted(parsed.value, |e| - end - TAG_BYTES, maxPayload) then None
      else
        var h := parsed.value;
        var canonical := CanonicalHeader(h, lib);
        if canonical.None? || lib.text(canonical.value.1) != raw.value then None
        else
          var salt := DecodeFixed(Get(Get(h, "kdf").value, "salt"), SALT_BYTES, lib);
          var nonce := DecodeFixed(Get(h, "nonce"), NONCE_BYTES, lib);
          if salt.None? || nonce.None? then None
          else Some(Parsed(h, canonical.value.0, salt.value, nonce.value, e[..end], e[end..|e| - TAG_BYTES], e[|e| - TAG_BYTES..]))
  }

  function Encrypt(plaintext: Bytes, passphrase: string, metadata: Option<Json>, maxPayload: int, salt: Bytes, nonce: Bytes, lib: Library): Option<Bytes> {
    if !LimitAccepted(maxPayload) || !PassphraseAccepted(passphrase, lib) || |plaintext| > maxPayload then None
    else
      var clean := CanonicalMetadata(metadata, lib);
      if clean.None? then None
      else
        var header := Canonicalize(BuildHeader(|plaintext|, clean.value, salt, nonce, lib), 0, lib.before);
        if header.None? then None
        else
          var raw := lib.text(header.value);
          if |raw| > MAX_HEADER then None
          else
            var aad := Prefix(|raw|) + raw;
            var sealed := lib.seal(lib.key(passphrase, salt), nonce, aad, plaintext);
            Some(aad + sealed.0 + sealed.1)
  }

  /** None is the one authentication error. */
  function Decrypt(e: Bytes, passphrase: string, maxPayload: int, lib: Library): Option<(Bytes, Json)> {
    if !LimitAccepted(maxPayload) || !PassphraseAccepted(passphrase, lib) then None
    else
      var p := Parse(e, maxPayload, lib);
      if p.None? then None
      else
        var plaintext := lib.unseal(lib.key(passphrase, p.value.salt), p.value.nonce, p.value.aad, p.value.ciphertext, p.value.tag);
        if plaintext.None? then None else Some((plaintext.value, p.value.metadata))
  }

  method EncryptRecoveryEnvelope(plaintext: Bytes, passphrase: string, metadata: Option<Json>, maxPayload: int, salt: Bytes, nonce: Bytes,
                                 lib: Library) returns (r: Option<Bytes>)
    ensures r == Encrypt(plaintext, passphrase, metadata, maxPayload, salt, nonce, lib)
  {
    if !LimitAccepted(maxPayload) || !PassphraseAccepted(passphrase, lib) || |plaintext| > maxPayload { return None; }
    var clean := CanonicalMetadata(metadata, lib);
    if clean == None { return None; }
    var header := CanonicalValue(BuildHeader(|plaintext|, clean.value, salt, nonce, lib), 0, lib.before);
    if header == None { return None; }
    var raw := lib.text(header.value);
    if |raw| > MAX_HEADER { return None; }
    var prefix := EncodePrefix(|raw|);
    var aad := prefix[..] + raw;
    var sealed := lib.seal(lib.key(passphrase, salt), nonce, aad, plaintext);
    r := Some(aad + sealed.0 + sealed.1);
  }

  method DecryptRecoveryEnvelope(e: Bytes, passphrase: string, maxPayload: int, lib: Library) returns (r: Option<(Bytes, Json)>)
    ensures r == Decrypt(e, passphrase, maxPayload, lib)
  {
    if !LimitAccepted(maxPayload) || !PassphraseAccepted(passphrase, lib) { return None; }
    var parsed := Parse(e, maxPayload, lib);
    if parsed == None { return None; }
    var p := parsed.value;
    var key := lib.key(passphrase, p.salt);
    var plaintext := lib.unseal(key, p.nonce, p.aad, p.ciphertext, p.tag);
    if plaintext == None { return None; }
    r := Some((plaintext.value, p.metadata));
  }

  // ------------------------------------------------------------------ round trip

  lemma FrameParts(raw: Bytes, ciphertext: Bytes, tag: Bytes)
    requires 2 <= |raw| <= MAX_HEADER && |tag| == TAG_BYTES
    ensures var e := Prefix(|raw|) + raw + ciphertext + tag;
            && RawHeader(e) == Some(raw) && |e| == PREFIX_BYTES + |raw| + |ciphertext| + TAG_BYTES
            && e[..PREFIX_BYTES + |raw|] == Prefix(|raw|) + raw
            && e[PREFIX_BYTES + |raw|..|e| - TAG_BYTES] == ciphertext && e[|e| - TAG_BYTES..] == tag
  {
    var e := Prefix(|raw|) + raw + ciphertext + tag;
    ReadOfWrite(|raw|);
    assert e[..8] == MAGIC && e[8..12] == U32(|raw|);
    assert e[PREFIX_BYTES..PREFIX_BYTES + |raw|] == raw;
  }

  /** An accepted frame is its prefix, its raw header and the rest. */
  lemma FrameOf(e: Bytes)
    requires RawHeader(e).Some?
    ensures var raw := RawHeader(e).value;
            2 <= |raw| <= MAX_HEADER && PREFIX_BYTES + |raw| <= |e| && e[..PREFIX_BYTES + |raw|] == Prefix(|raw|) + raw
  {
    var raw := RawHeader(e).value;
    WriteOfRead(e[8..12]);
    assert e[..PREFIX_BYTES + |raw|] == e[..8] + e[8..12] + raw;
  }

  /** Names are told apart here by their length and first letter. */
  function Mark(f: Field): int {
    if f.key == "" then 0 else |f.key| * 128 + f.key[0] as int
  }

  lemma MarksApart(fields: seq<Field>)
    requires forall i, j :: 0 <= i < j < |fields| ==> Mark(fields[i]) != Mark(fields[j])
    ensures DistinctKeys(fields, FieldKey)
  {
    forall i, j | 0 <= i < j < |fields|
      ensures FieldKey(fields[i]) != FieldKey(fields[j])
    {
      assert Mark(fields[i]) != Mark(fields[j]);
    }
  }

  lemma KdfDistinct(salt: Bytes, lib: Library)
    ensures DistinctKeys(BuildKdf(salt, lib).fields, FieldKey)
  {
    var f := BuildKdf(salt, lib).fields;
    assert Mark(f[0]) == 128 + 'N' as int && Mark(f[1]) == 4 * 128 + 'n' as int && Mark(f[2]) == 128 + 'p' as int;
    assert Mark(f[3]) == 128 + 'r' as int && Mark(f[4]) == 4 * 128 + 's' as int;
    MarksApart(f);
  }

  lemma KdfKeys(salt: Bytes, lib: Library)
    ensures KeySet(BuildKdf(salt, lib).fields) == KDF_KEYS
  {
    var f := BuildKdf(salt, lib).fields;
    assert |f| == 5 && f == [f[0], f[1], f[2], f[3], f[4]];
    assert KeySet(f) == {f[0].key, f[1].key, f[2].key, f[3].key, f[4].key};
  }

  lemma SmallNumber(n: int)
    requires -0x1_0000_0000 <= n <= 0x1_0000_0000
    ensures WellFormed(Num(n))
  {
  }

  /** An object of fields that are well formed one by one. */
  lemma WellFormedObject(fields: seq<Field>)
    requires DistinctKeys(fields, FieldKey) && forall k :: 0 <= k < |fields| ==> WellFormed(fields[k].value)
    ensures WellFormed(Obj(fields))
  {
  }

  lemma KdfWellFormed(salt: Bytes, lib: Library)
    ensures WellFormed(BuildKdf(salt, lib))
  {
    KdfDistinct(salt, lib);
    SmallNumber(32768);
    SmallNumber(1);
    SmallNumber(8);
    var f := BuildKdf(salt, lib).fields;
    assert forall k :: 0 <= k < |f| ==> f[k].value == Num(32768) || f[k].value == Num(1) || f[k].value == Num(8) || f[k].value.Str?;
    WellFormedObject(f);
  }

  lemma HeaderDistinct(payloadBytes: nat, metadata: Json, salt: Bytes, nonce: Bytes, lib: Library)
    ensures DistinctKeys(BuildHeader(payloadBytes, metadata, salt, nonce, lib).fields, FieldKey)
  {
    var f := BuildHeader(payloadBytes, metadata, salt, nonce, lib).fields;
    assert Mark(f[0]) == 6 * 128 + 'c' as int && Mark(f[1]) == 15 * 128 + 'c' as int && Mark(f[2]) == 6 * 128 + 'f' as int;
    assert Mark(f[3]) == 3 * 128 + 'k' as int && Mark(f[4]) == 8 * 128 + 'm' as int && Mark(f[5]) == 5 * 128 + 'n' as int;
    assert Mark(f[6]) == 8 * 128 + 't' as int && Mark(f[7]) == 7 * 128 + 'v' as int;
    MarksApart(f);
  }

  lemma HeaderKeys(payloadBytes: nat, metadata: Json, salt: Bytes, nonce: Bytes, lib: Library)
    ensures KeySet(BuildHeader(payloadBytes, metadata, salt, nonce, lib).fields) == HEADER_KEYS
  {
    var f := BuildHeader(payloadBytes, metadata, salt, nonce, lib).fields;
    assert |f| == 8 && f == [f[0], f[1], f[2], f[3], f[4], f[5], f[6], f[7]];
    assert KeySet(f) == {f[0].key, f[1].key, f[2].key, f[3].key, f[4].key, f[5].key, f[6].key, f[7].key};
  }

  lemma HeaderValues(payloadBytes: nat, metadata: Json, salt: Bytes, nonce: Bytes, lib: Library)
    ensures var f := BuildHeader(payloadBytes, metadata, salt, nonce, lib).fields;
            |f| == 8 && forall k :: 0 <= k < |f| ==>
              f[k].value.Str? || f[k].value == Num(payloadBytes) || f[k].value == Num(16) || f[k].value == Num(1)
              || f[k].value == BuildKdf(salt, lib) || f[k].value == metadata
    ensures BuildHeader(payloadBytes, metadata, salt, nonce, lib).fields[3].value == BuildKdf(salt, lib)
    ensures BuildHeader(payloadBytes, metadata, salt, nonce, lib).fields[4].value == metadata
  {
  }

  lemma HeaderWellFormed(payloadBytes: nat, metadata: Json, salt: Bytes, nonce: Bytes, lib: Library)
    requires WellFormed(metadata) && payloadBytes <= ABSOLUTE_MAX
    ensures WellFormed(BuildHeader(payloadBytes, metadata, salt, nonce, lib))
  {
    KdfWellFormed(salt, lib);
    SmallNumber(payloadBytes);
    SmallNumber(16);
    SmallNumber(1);
    HeaderDistinct(payloadBytes, metadata, salt, nonce, lib);
    HeaderValues(payloadBytes, metadata, salt, nonce, lib);
    WellFormedObject(BuildHeader(payloadBytes, metadata, salt, nonce, lib).fields);
  }

  /** A canonical object holds the canonical form of each field under its key. */
  lemma HeldCanonically(h: Json, c: Json, depth: nat, before: (string, string) -> bool)
    requires TotalOrder(before) && h.Obj? && DistinctKeys(h.fields, FieldKey) && Canonicalize(h, depth, before) == Some(c)
    ensures forall i :: 0 <= i < |h.fields| ==>
                          Get(c, h.fields[i].key) == Canonicalize(h.fields[i].value, depth + 1, before) && Get(c, h.fields[i].key).Some?
    ensures c.Obj? && KeySet(c.fields) == KeySet(h.fields) && DistinctKeys(c.fields, FieldKey)
  {
    CanonicalSorted(h, depth, before);
    forall i | 0 <= i < |h.fields|
      ensures Get(c, h.fields[i].key) == Canonicalize(h.fields[i].value, depth + 1, before) && Get(c, h.fields[i].key).Some?
    {
      CanonicalLookup(h, h.fields[i], depth, before);
    }
  }

  lemma KdfHolds(salt: Bytes, k: Json, lib: Library)
    requires TotalOrder(lib.before) && Canonicalize(BuildKdf(salt, lib), 1, lib.before) == Some(k)
    ensures k.Obj? && KeySet(k.fields) == KDF_KEYS
    ensures Get(k, "N") == Canonicalize(Num(32768), 2, lib.before) && Get(k, "name") == Canonicalize(Str("scrypt"), 2, lib.before)
    ensures Get(k, "p") == Canonicalize(Num(1), 2, lib.before) && Get(k, "r") == Canonicalize(Num(8), 2, lib.before)
    ensures Get(k, "salt") == Canonicalize(Str(lib.base64(salt)), 2, lib.before)
  {
    KdfDistinct(salt, lib);
    KdfKeys(salt, lib);
    HeldCanonically(BuildKdf(salt, lib), k, 1, lib.before);
    var f := BuildKdf(salt, lib).fields;
    assert Get(k, f[0].key) == Canonicalize(f[0].value, 2, lib.before) && Get(k, f[1].key) == Canonicalize(f[1].value, 2, lib.before);
    assert Get(k, f[2].key) == Canonicalize(f[2].value, 2, lib.before) && Get(k, f[3].key) == Canonicalize(f[3].value, 2, lib.before);
    assert Get(k, f[4].key) == Canonicalize(f[4].value, 2, lib.before);
  }

  lemma KdfIsAccepted(salt: Bytes, k: Json, lib: Library)
    requires TotalOrder(lib.before) && Canonicalize(BuildKdf(salt, lib), 1, lib.before) == Some(k)
    ensures KdfAccepted(Some(k)) && Get(k, "salt") == Some(Str(lib.base64(salt)))
  {
    KdfHolds(salt, k, lib);
  }

  /** The fields of a header, as its canonical form holds them. */
  lemma HeaderHolds(payloadBytes: nat, metadata: Json, salt: Bytes, nonce: Bytes, c: Json, lib: Library)
    requires TotalOrder(lib.before) && Canonicalize(BuildHeader(payloadBytes, metadata, salt, nonce, lib), 0, lib.before) == Some(c)
    ensures c.Obj? && KeySet(c.fields) == HEADER_KEYS && DistinctKeys(c.fields, FieldKey)
    ensures Get(c, "cipher") == Canonicalize(Str("aes-256-gcm"), 1, lib.before) && Get(c, "ciphertextBytes") == Canonicalize(Num(payloadBytes), 1, lib.before)
    ensures Get(c, "format") == Canonicalize(Str("roomgoblin-full-recovery"), 1, lib.before) && Get(c, "tagBytes") == Canonicalize(Num(16), 1, lib.before)
    ensures Get(c, "kdf") == Canonicalize(BuildKdf(salt, lib), 1, lib.before) && Get(c, "metadata") == Canonicalize(metadata, 1, lib.before)
    ensures Get(c, "nonce") == Canonicalize(Str(lib.base64(nonce)), 1, lib.before) && Get(c, "version") == Canonicalize(Num(1), 1, lib.before)
    ensures Get(c, "kdf").Some? && Get(c, "metadata").Some?
  {
    var h := BuildHeader(payloadBytes, metadata, salt, nonce, lib);
    HeaderDistinct(payloadBytes, metadata, salt, nonce, lib);
    HeaderKeys(payloadBytes, metadata, salt, nonce, lib);
    HeldCanonically(h, c, 0, lib.before);
    var f := h.fields;
    assert Get(c, f[0].key) == Canonicalize(f[0].value, 1, lib.before) && Get(c, f[1].key) == Canonicalize(f[1].value, 1, lib.before);
    assert Get(c, f[2].key) == Canonicalize(f[2].value, 1, lib.before) && Get(c, f[3].key) == Canonicalize(f[3].value, 1, lib.before);
    assert Get(c, f[4].key) == Canonicalize(f[4].value, 1, lib.before) && Get(c, f[5].key) == Canonicalize(f[5].value, 1, lib.before);
    assert Get(c, f[6].key) == Canonicalize(f[6].value, 1, lib.before) && Get(c, f[7].key) == Canonicalize(f[7].value, 1, lib.before);
  }

  /** What the parser reads back from a canonical header. */
  lemma HeaderIsAccepted(payloadBytes: nat, metadata: Json, salt: Bytes, nonce: Bytes, c: Json, lib: Library)
    requires TotalOrder(lib.before) && Fixed(metadata, 0, lib.before)
    requires Canonicalize(BuildHeader(payloadBytes, metadata, salt, nonce, lib), 0, lib.before) == Some(c)
    ensures HeaderAccepted(c) && Get(c, "ciphertextBytes") == Some(Num(payloadBytes)) && Get(c, "metadata") == Some(metadata)
    ensures Get(c, "nonce") == Some(Str(lib.base64(nonce))) && Get(Get(c, "kdf").value, "salt") == Some(Str(lib.base64(salt)))
    ensures DistinctKeys(c.fields, FieldKey)
  {
    HeaderHolds(payloadBytes, metadata, salt, nonce, c, lib);
    KdfIsAccepted(salt, Get(c, "kdf").value, lib);
    ShallowerSame(metadata, Get(c, "metadata").value, 1, 0, lib.before);
  }

  lemma {:induction false} LookupMember(fields: seq<Field>, key: string)
    requires Lookup(fields, key).Some?
    ensures Field(key, Lookup(fields, key).value) in fields
  {
    if fields[0].key != key { LookupMember(fields[1..], key); }
  }

  lemma ReplaceHeld(c: Json, key: string)
    requires c.Obj? && DistinctKeys(c.fields, FieldKey) && Get(c, key).Some?
    ensures Replace(c, key, Get(c, key).value) == c
  {
    forall i | 0 <= i < |c.fields| && c.fields[i].key == key
      ensures c.fields[i].value == Get(c, key).value
    {
      LookupFinds(c.fields, c.fields[i]);
    }
    assert Replace(c, key, Get(c, key).value).fields == c.fields;
  }

  /** A canonical header with canonical metadata is its own canonical text. */
  lemma CanonicalHeaderFixed(c: Json, metadata: Json, lib: Library)
    requires c.Obj? && DistinctKeys(c.fields, FieldKey) && Fixed(c, 0, lib.before) && Get(c, "metadata") == Some(metadata)
    requires CanonicalMetadata(Some(metadata), lib) == Some(metadata)
    ensures CanonicalHeader(c, lib) == Some((metadata, c))
  {
    ReplaceHeld(c, "metadata");
  }

  /** Clean metadata stays clean. */
  lemma MetadataFixed(metadata: Option<Json>, clean: Json, lib: Library)
    requires TotalOrder(lib.before) && (metadata.Some? ==> WellFormed(metadata.value)) && CanonicalMetadata(metadata, lib) == Some(clean)
    ensures Fixed(clean, 0, lib.before) && CanonicalMetadata(Some(clean), lib) == Some(clean)
  {
    var v := if metadata == None || metadata == Some(Null) then Obj([]) else metadata.value;
    CanonicalizeIdempotent(v, clean, 0, 0, lib.before);
  }

  /** Parsing takes a well-framed envelope with an accepted header apart. */
  lemma ParseParts(e: Bytes, raw: Bytes, c: Json, metadata: Json, salt: Bytes, nonce: Bytes, size: nat, limit: int, lib: Library)
    requires RawHeader(e) == Some(raw) && |e| == PREFIX_BYTES + |raw| + size + TAG_BYTES && size <= limit
    requires lib.parse(raw) == Some(c) && HeaderAccepted(c) && CanonicalHeader(c, lib) == Some((metadata, c)) && lib.text(c) == raw
    requires Get(c, "ciphertextBytes") == Some(Num(size))
    requires DecodeFixed(Get(Get(c, "kdf").value, "salt"), SALT_BYTES, lib) == Some(salt)
    requires DecodeFixed(Get(c, "nonce"), NONCE_BYTES, lib) == Some(nonce)
    ensures Parse(e, limit, lib) ==
            Some(Parsed(c, metadata, salt, nonce, e[..PREFIX_BYTES + |raw|], e[PREFIX_BYTES + |raw|..|e| - TAG_BYTES], e[|e| - TAG_BYTES..]))
  {
  }

  /** What an envelope is made of. */
  lemma EncryptParts(plaintext: Bytes, passphrase: string, metadata: Option<Json>, limit: int, salt: Bytes, nonce: Bytes, e: Bytes, lib: Library)
    returns (clean: Json, c: Json, ciphertext: Bytes, tag: Bytes)
    requires Encrypt(plaintext, passphrase, metadata, limit, salt, nonce, lib) == Some(e)
    ensures |plaintext| <= ABSOLUTE_MAX && CanonicalMetadata(metadata, lib) == Some(clean)
    ensures Canonicalize(BuildHeader(|plaintext|, clean, salt, nonce, lib), 0, lib.before) == Some(c) && |lib.text(c)| <= MAX_HEADER
    ensures lib.seal(lib.key(passphrase, salt), nonce, Prefix(|lib.text(c)|) + lib.text(c), plaintext) == (ciphertext, tag)
    ensures e == Prefix(|lib.text(c)|) + lib.text(c) + ciphertext + tag
  {
    clean := CanonicalMetadata(metadata, lib).value;
    c := Canonicalize(BuildHeader(|plaintext|, clean, salt, nonce, lib), 0, lib.before).value;
    var sealed := lib.seal(lib.key(passphrase, salt), nonce, Prefix(|lib.text(c)|) + lib.text(c), plaintext);
    ciphertext, tag := sealed.0, sealed.1;
  }

  lemma CanonicalReads(h: Json, c: Json, lib: Library)
    requires Sound(lib) && h.Obj? && WellFormed(h) && Canonicalize(h, 0, lib.before) == Some(c)
    ensures Fixed(c, 0, lib.before) && lib.parse(lib.text(c)) == Some(c) && |lib.text(c)| >= 2
  {
    CanonicalizeIdempotent(h, c, 0, 0, lib.before);
    CanonicalSorted(h, 0, lib.before);
  }

  lemma DecodeEncoded(b: Bytes, lib: Library)
    requires Sound(lib)
    ensures DecodeFixed(Some(Str(lib.base64(b))), |b|, lib) == Some(b)
  {
  }

  /** What was encrypted is parsed back in its parts. */
  lemma ParseOfEncrypt(plaintext: Bytes, passphrase: string, metadata: Option<Json>, limit: int, salt: Bytes, nonce: Bytes, later: int, e: Bytes,
                       lib: Library) returns (p: Parsed)
    requires Sound(lib) && (metadata.Some? ==> WellFormed(metadata.value)) && |salt| == SALT_BYTES && |nonce| == NONCE_BYTES
    requires Encrypt(plaintext, passphrase, metadata, limit, salt, nonce, lib) == Some(e) && |plaintext| <= later
    ensures Parse(e, later, lib) == Some(p) && Some(p.metadata) == CanonicalMetadata(metadata, lib) && p.salt == salt && p.nonce == nonce
    ensures lib.seal(lib.key(passphrase, salt), nonce, p.aad, plaintext) == (p.ciphertext, p.tag)
  {
    var clean, c, ciphertext, tag := EncryptParts(plaintext, passphrase, metadata, limit, salt, nonce, e, lib);
    MetadataFixed(metadata, clean, lib);
    SealedSizes(lib.key(passphrase, salt), nonce, Prefix(|lib.text(c)|) + lib.text(c), plaintext, lib);
    p := HeaderParsesBack(|plaintext|, clean, salt, nonce, c, ciphertext, tag, later, lib);
  }

  /** A canonical header, framed with any ciphertext and tag of the right sizes, parses into its parts. */
  lemma HeaderParsesBack(size: nat, clean: Json, salt: Bytes, nonce: Bytes, c: Json, ciphertext: Bytes, tag: Bytes, later: int, lib: Library)
    returns (p: Parsed)
    requires Sound(lib) && Fixed(clean, 0, lib.before) && CanonicalMetadata(Some(clean), lib) == Some(clean)
    requires |salt| == SALT_BYTES && |nonce| == NONCE_BYTES && size <= ABSOLUTE_MAX && size <= later
    requires Canonicalize(BuildHeader(size, clean, salt, nonce, lib), 0, lib.before) == Some(c) && |lib.text(c)| <= MAX_HEADER
    requires |ciphertext| == size && |tag| == TAG_BYTES
    ensures p == Parsed(c, clean, salt, nonce, Prefix(|lib.text(c)|) + lib.text(c), ciphertext, tag)
    ensures Parse(Prefix(|lib.text(c)|) + lib.text(c) + ciphertext + tag, later, lib) == Some(p)
  {
    HeaderWellFormed(size, clean, salt, nonce, lib);
    HeaderIsAccepted(size, clean, salt, nonce, c, lib);
    CanonicalReads(BuildHeader(size, clean, salt, nonce, lib), c, lib);
    CanonicalHeaderFixed(c, clean, lib);
    DecodeEncoded(salt, lib);
    DecodeEncoded(nonce, lib);
    var raw := lib.text(c);
    FrameParts(raw, ciphertext, tag);
    ParseParts(Prefix(|raw|) + raw + ciphertext + tag, raw, c, clean, salt, nonce, size, later, lib);
    p := Parsed(c, clean, salt, nonce, Prefix(|raw|) + raw, ciphertext, tag);
  }

  lemma SealedSizes(key: Bytes, nonce: Bytes, aad: Bytes, plaintext: Bytes, lib: Library)
    requires Sound(lib)
    ensures |lib.seal(key, nonce, aad, plaintext).0| == |plaintext| && |lib.seal(key, nonce, aad, plaintext).1| == TAG_BYTES
  {
  }

  /** Whenever encryption returns, decryption with the same passphrase and any limit that
      still fits gives back the payload and the canonical metadata. */
  lemma RoundTrip(plaintext: Bytes, passphrase: string, metadata: Option<Json>, limit: int, salt: Bytes, nonce: Bytes, later: int, lib: Library)
    requires Sound(lib) && (metadata.Some? ==> WellFormed(metadata.value)) && |salt| == SALT_BYTES && |nonce| == NONCE_BYTES
    requires Encrypt(plaintext, passphrase, metadata, limit, salt, nonce, lib).Some? && LimitAccepted(later) && |plaintext| <= later
    ensures CanonicalMetadata(metadata, lib).Some?
    ensures Decrypt(Encrypt(plaintext, passphrase, metadata, limit, salt, nonce, lib).value, passphrase, later, lib) ==
            Some((plaintext, CanonicalMetadata(metadata, lib).value))
  {
    var e := Encrypt(plaintext, passphrase, metadata, limit, salt, nonce, lib).value;
    var _ := ParseOfEncrypt(plaintext, passphrase, metadata, limit, salt, nonce, later, e, lib);
  }

  // --------------------------------------------------------- when it returns

  lemma KdfPlain(salt: Bytes, lib: Library)
    ensures Plain(BuildKdf(salt, lib)) && Height(BuildKdf(salt, lib)) <= 1
  {
    var k := BuildKdf(salt, lib);
    var f := k.fields;
    assert |f[0].key| == 1 && |f[1].key| == 4 && |f[2].key| == 1 && |f[3].key| == 1 && |f[4].key| == 4;
    FieldBound(k, |f|, 1);
  }

  lemma SafeHeaderKeys(payloadBytes: nat, metadata: Json, salt: Bytes, nonce: Bytes, lib: Library)
    ensures forall k :: 0 <= k < 8 ==> !Unsafe(BuildHeader(payloadBytes, metadata, salt, nonce, lib).fields[k].key)
  {
    var f := BuildHeader(payloadBytes, metadata, salt, nonce, lib).fields;
    assert |f[0].key| == 6 && |f[1].key| == 15 && |f[2].key| == 6 && |f[3].key| == 3;
    assert |f[4].key| == 8 && |f[5].key| == 5 && |f[6].key| == 8 && |f[7].key| == 7;
  }

  /** The header is one level higher than its metadata, and plain if that is. */
  lemma HeaderHeight(payloadBytes: nat, metadata: Json, salt: Bytes, nonce: Bytes, lib: Library)
    ensures Plain(BuildHeader(payloadBytes, metadata, salt, nonce, lib)) <==> Plain(metadata)
    ensures Height(BuildHeader(payloadBytes, metadata, salt, nonce, lib)) <= MAX_DEPTH <==> Height(metadata) <= MAX_DEPTH - 1
  {
    var h := BuildHeader(payloadBytes, metadata, salt, nonce, lib);
    KdfPlain(salt, lib);
    HeaderValues(payloadBytes, metadata, salt, nonce, lib);
    SafeHeaderKeys(payloadBytes, metadata, salt, nonce, lib);
    PlainFields(h.fields, 4);
    FieldBound(h, 8, MAX_DEPTH);
    assert 1 + Height(h.fields[4].value) <= MAX_DEPTH <==> Height(metadata) <= MAX_DEPTH - 1;
  }

  lemma PlainFields(fields: seq<Field>, i: nat)
    requires i < |fields| && forall k :: 0 <= k < |fields| ==> !Unsafe(fields[k].key)
    requires forall k :: 0 <= k < |fields| ==> Plain(fields[k].value) || fields[k].value == fields[i].value
    ensures Plain(Obj(fields)) <==> Plain(fields[i].value)
  {
  }

  /** The canonical header of a call, where there is one. */
  function HeaderFor(payloadBytes: nat, clean: Json, salt: Bytes, nonce: Bytes, lib: Library): Option<Json> {
    Canonicalize(BuildHeader(payloadBytes, clean, salt, nonce, lib), 0, lib.before)
  }

  function HeaderBytes(payloadBytes: nat, clean: Json, salt: Bytes, nonce: Bytes, lib: Library): nat {
    var c := HeaderFor(payloadBytes, clean, salt, nonce, lib);
    if c.Some? then |lib.text(c.value)| else 0
  }

  lemma HeaderForIff(payloadBytes: nat, clean: Json, salt: Bytes, nonce: Bytes, lib: Library)
    requires TotalOrder(lib.before) && Fixed(clean, 0, lib.before) && payloadBytes <= ABSOLUTE_MAX
    ensures HeaderFor(payloadBytes, clean, salt, nonce, lib).Some? <==> Height(clean) <= MAX_DEPTH - 1
  {
    CanonicalIff(clean, 0, lib.before);
    HeaderWellFormed(payloadBytes, clean, salt, nonce, lib);
    HeaderHeight(payloadBytes, clean, salt, nonce, lib);
    CanonicalIff(BuildHeader(payloadBytes, clean, salt, nonce, lib), 0, lib.before);
  }

  /** Encryption returns exactly when the limit, the passphrase and the payload's size are in
      order, and the metadata is accepted, one level short of the deepest, and leaves the
      header within its limit. */
  lemma EncryptsIff(plaintext: Bytes, passphrase: string, metadata: Option<Json>, limit: int, salt: Bytes, nonce: Bytes, lib: Library)
    requires TotalOrder(lib.before) && (metadata.Some? ==> WellFormed(metadata.value))
    ensures Encrypt(plaintext, passphrase, metadata, limit, salt, nonce, lib).Some? <==>
            && 1 <= limit <= ABSOLUTE_MAX && |passphrase| >= 16 && lib.utf8Length(passphrase) <= 1024 && |plaintext| <= limit
            && CanonicalMetadata(metadata, lib).Some?
            && var clean := CanonicalMetadata(metadata, lib).value;
               Height(clean) <= MAX_DEPTH - 1 && HeaderBytes(|plaintext|, clean, salt, nonce, lib) <= MAX_HEADER
  {
    var clean := CanonicalMetadata(metadata, lib);
    if clean.Some? && |plaintext| <= limit && LimitAccepted(limit) {
      MetadataFixed(metadata, clean.value, lib);
      HeaderForIff(|plaintext|, clean.value, salt, nonce, lib);
    }
  }

  /** Nested objects of every depth the metadata check allows are accepted there, and those of
      the deepest are refused by encryption. */
  lemma DeepestMetadataRefused(n: nat, plaintext: Bytes, passphrase: string, limit: int, salt: Bytes, nonce: Bytes, lib: Library)
    requires TotalOrder(lib.before) && n <= MAX_DEPTH && |lib.text(Nested(n))| <= MAX_METADATA
    ensures CanonicalMetadata(Some(Nested(n)), lib) == Some(Nested(n))
    ensures n == MAX_DEPTH ==> Encrypt(plaintext, passphrase, Some(Nested(n)), limit, salt, nonce, lib) == None
  {
    NestedHeight(n);
    NestedFixed(n, 0, lib.before);
    EncryptsIff(plaintext, passphrase, Some(Nested(n)), limit, salt, nonce, lib);
  }

  // -------------------------------------------------------------- unique encoding

  lemma ReplaceWellFormed(h: Json, key: string, value: Json)
    requires h.Obj? && WellFormed(h) && WellFormed(value)
    ensures WellFormed(Replace(h, key, value))
  {
    var r := Replace(h, key, value);
    assert forall i :: 0 <= i < |h.fields| ==> FieldKey(r.fields[i]) == FieldKey(h.fields[i]);
  }

  lemma HeldWellFormed(h: Json, key: string)
    requires h.Obj? && WellFormed(h) && Get(h, key).Some?
    ensures WellFormed(Get(h, key).value)
  {
    LookupMember(h.fields, key);
    FieldWellFormed(h, Field(key, Get(h, key).value));
  }

  /** A header that parses and reprints to the same bytes is canonical itself. */
  lemma ReprintedHeader(raw: Bytes, h: Json, metadata: Json, c: Json, lib: Library)
    requires Sound(lib) && lib.parse(raw) == Some(h) && h.Obj?
    requires CanonicalHeader(h, lib) == Some((metadata, c)) && lib.text(c) == raw
    ensures h == c && Fixed(h, 0, lib.before)
  {
    if Get(h, "metadata").Some? { HeldWellFormed(h, "metadata"); }
    MetadataFixed(Get(h, "metadata"), metadata, lib);
    ReplaceWellFormed(h, "metadata", metadata);
    CanonicalReads(Replace(h, "metadata", metadata), c, lib);
  }

  lemma ParsedParts(e: Bytes, limit: int, p: Parsed, lib: Library) returns (raw: Bytes, c: Json)
    requires Parse(e, limit, lib) == Some(p)
    ensures RawHeader(e) == Some(raw) && lib.parse(raw) == Some(p.header) && p.header.Obj? && lib.text(c) == raw
    ensures CanonicalHeader(p.header, lib) == Some((p.metadata, c)) && PREFIX_BYTES + |raw| + TAG_BYTES <= |e|
    ensures p.aad == e[..PREFIX_BYTES + |raw|] && p.ciphertext == e[PREFIX_BYTES + |raw|..|e| - TAG_BYTES] && p.tag == e[|e| - TAG_BYTES..]
  {
    raw := RawHeader(e).value;
    c := CanonicalHeader(p.header, lib).value.1;
  }

  lemma InThree(e: Bytes, i: nat, j: nat)
    requires i <= j <= |e|
    ensures e == e[..i] + e[i..j] + e[j..]
  {
  }

  /** An accepted envelope is its header printed canonically, its ciphertext and its tag. */
  lemma AcceptedForm(e: Bytes, limit: int, p: Parsed, lib: Library)
    requires Sound(lib) && Parse(e, limit, lib) == Some(p)
    ensures Fixed(p.header, 0, lib.before) && |lib.text(p.header)| <= MAX_HEADER
    ensures p.aad == Prefix(|lib.text(p.header)|) + lib.text(p.header) && e == p.aad + p.ciphertext + p.tag
  {
    var raw, c := ParsedParts(e, limit, p, lib);
    assert e == p.aad + p.ciphertext + p.tag by { InThree(e, PREFIX_BYTES + |raw|, |e| - TAG_BYTES); }
    assert p.aad == Prefix(|raw|) + raw && |raw| <= MAX_HEADER by { FrameOf(e); }
    ReprintedHeader(raw, p.header, p.metadata, c, lib);
  }

  /** So it is determined, byte for byte, by the value of its header, its ciphertext and its tag. */
  lemma UniqueEncoding(e: Bytes, f: Bytes, limit: int, later: int, p: Parsed, q: Parsed, lib: Library)
    requires Sound(lib) && Parse(e, limit, lib) == Some(p) && Parse(f, later, lib) == Some(q)
    requires Same(p.header, q.header) && p.ciphertext == q.ciphertext && p.tag == q.tag
    ensures e == f && p == q
  {
    AcceptedForm(e, limit, p, lib);
    AcceptedForm(f, later, q, lib);
    CanonicalizeBlind(p.header, q.header, 0, lib.before);
  }

  // -------------------------------------------------------- only what was sealed

  /** The object holds the same under the key of a field as the field does. */
  predicate HoldsAt(a: Json, f: Field) {
    Get(a, f.key).Some? && Same(Get(a, f.key).value, f.value)
  }

  /** Objects that hold the same under every key are the same. */
  lemma SameByKey(a: Json, b: Json)
    requires a.Obj? && b.Obj? && DistinctKeys(a.fields, FieldKey) && KeySet(a.fields) == KeySet(b.fields)
    requires forall j :: 0 <= j < |b.fields| ==> HoldsAt(a, b.fields[j])
    ensures Same(a, b)
  {
    forall i, j | 0 <= i < |a.fields| && 0 <= j < |b.fields| && a.fields[i].key == b.fields[j].key
      ensures Same(a.fields[i].value, b.fields[j].value)
    {
      assert HoldsAt(a, b.fields[j]);
      LookupFinds(a.fields, a.fields[i]);
    }
  }

  /** An accepted key derivation is the one that is built for its salt. */
  lemma KdfSame(k: Json, salt: Bytes, lib: Library)
    requires KdfAccepted(Some(k)) && DistinctKeys(k.fields, FieldKey) && Get(k, "salt") == Some(Str(lib.base64(salt)))
    ensures Same(k, BuildKdf(salt, lib))
  {
    KdfKeys(salt, lib);
    SameByKey(k, BuildKdf(salt, lib));
  }

  lemma TextHeld(a: Json, key: string, text: string)
    requires Get(a, key) == Some(Str(text))
    ensures HoldsAt(a, Field(key, Str(text)))
  {
  }

  lemma NumberHeld(a: Json, key: string, number: int)
    requires Get(a, key) == Some(Num(number))
    ensures HoldsAt(a, Field(key, Num(number)))
  {
  }

  lemma ValueHeld(a: Json, key: string, value: Json)
    requires Get(a, key).Some? && Same(Get(a, key).value, value)
    ensures HoldsAt(a, Field(key, value))
  {
  }

  /** An object that holds each of eight fields holds all of them. */
  lemma EightHeld(holds: Field -> bool, f: seq<Field>)
    requires |f| == 8 && holds(f[0]) && holds(f[1]) && holds(f[2]) && holds(f[3])
    requires holds(f[4]) && holds(f[5]) && holds(f[6]) && holds(f[7])
    ensures forall j :: 0 <= j < |f| ==> holds(f[j])
  {
  }

  lemma HeaderMatches(h: Json, size: nat, metadata: Json, salt: Bytes, nonce: Bytes, lib: Library)
    requires Get(h, "cipher") == Some(Str("aes-256-gcm")) && Get(h, "format") == Some(Str("roomgoblin-full-recovery"))
    requires Get(h, "version") == Some(Num(1)) && Get(h, "tagBytes") == Some(Num(16))
    requires Get(h, "kdf").Some? && Same(Get(h, "kdf").value, BuildKdf(salt, lib))
    requires Get(h, "ciphertextBytes") == Some(Num(size)) && Get(h, "metadata") == Some(metadata) && Same(metadata, metadata)
    requires Get(h, "nonce") == Some(Str(lib.base64(nonce)))
    ensures forall j :: 0 <= j < 8 ==> HoldsAt(h, BuildHeader(size, metadata, salt, nonce, lib).fields[j])
  {
    TextHeld(h, "cipher", "aes-256-gcm");
    NumberHeld(h, "ciphertextBytes", size);
    TextHeld(h, "format", "roomgoblin-full-recovery");
    ValueHeld(h, "kdf", BuildKdf(salt, lib));
    ValueHeld(h, "metadata", metadata);
    TextHeld(h, "nonce", lib.base64(nonce));
    NumberHeld(h, "tagBytes", 16);
    NumberHeld(h, "version", 1);
    EightHeld(f => HoldsAt(h, f), BuildHeader(size, metadata, salt, nonce, lib).fields);
  }

  /** So is an accepted header, for its size, metadata, salt and nonce. */
  lemma HeaderSame(h: Json, built: Json)
    requires h.Obj? && WellFormed(h) && built.Obj? && KeySet(h.fields) == KeySet(built.fields) && |built.fields| == 8
    requires forall j :: 0 <= j < 8 ==> HoldsAt(h, built.fields[j])
    ensures Same(h, built)
  {
    SameByKey(h, built);
  }

  lemma ReplacedThere(h: Json, key: string, value: Json)
    requires h.Obj? && Get(h, key).Some?
    ensures Field(key, value) in Replace(h, key, value).fields
  {
    LookupMember(h.fields, key);
    var i :| 0 <= i < |h.fields| && h.fields[i].key == key;
    assert Replace(h, key, value).fields[i] == Field(key, value);
  }

  /** A canonical object holds a canonical field unchanged. */
  lemma FieldHeld(h: Json, r: Json, f: Field, depth: nat, outer: nat, before: (string, string) -> bool)
    requires TotalOrder(before) && h.Obj? && r.Obj? && WellFormed(r) && f in r.fields
    requires Canonicalize(r, depth, before) == Some(h) && Fixed(f.value, outer, before) && outer <= depth + 1
    ensures Get(h, f.key) == Some(f.value)
  {
    CanonicalLookup(r, f, depth, before);
    ShallowerSame(f.value, Canonicalize(f.value, depth + 1, before).value, depth + 1, outer, before);
  }

  /** What an accepted header holds under `metadata` is the canonical metadata itself. */
  lemma ParsedMetadata(h: Json, metadata: Json, lib: Library)
    requires TotalOrder(lib.before) && h.Obj? && WellFormed(h) && Get(h, "metadata").Some?
    requires CanonicalHeader(h, lib) == Some((metadata, h))
    ensures Get(h, "metadata") == Some(metadata) && Fixed(metadata, 0, lib.before)
    ensures CanonicalMetadata(Some(metadata), lib) == Some(metadata)
  {
    HeldWellFormed(h, "metadata");
    MetadataFixed(Get(h, "metadata"), metadata, lib);
    ReplaceWellFormed(h, "metadata", metadata);
    ReplacedThere(h, "metadata", metadata);
    FieldHeld(h, Replace(h, "metadata", metadata), Field("metadata", metadata), 0, 0, lib.before);
  }

  /** What the parser took from the header. */
  lemma ParsedFields(e: Bytes, limit: int, p: Parsed, lib: Library)
    requires Parse(e, limit, lib) == Some(p)
    ensures HeaderAccepted(p.header) && Get(p.header, "ciphertextBytes") == Some(Num(|p.ciphertext|)) && |p.ciphertext| <= limit
    ensures |p.salt| == SALT_BYTES && |p.nonce| == NONCE_BYTES
    ensures Get(p.header, "nonce") == Some(Str(lib.base64(p.nonce)))
    ensures Get(Get(p.header, "kdf").value, "salt") == Some(Str(lib.base64(p.salt)))
  {
  }

  /** An accepted header holds what is built again from its parts. */
  lemma AcceptedHolds(h: Json, size: nat, metadata: Json, salt: Bytes, nonce: Bytes, lib: Library)
    requires HeaderAccepted(h) && WellFormed(h) && Same(metadata, metadata)
    requires Get(h, "ciphertextBytes") == Some(Num(size)) && Get(h, "metadata") == Some(metadata)
    requires Get(h, "nonce") == Some(Str(lib.base64(nonce))) && Get(Get(h, "kdf").value, "salt") == Some(Str(lib.base64(salt)))
    ensures forall j :: 0 <= j < 8 ==> HoldsAt(h, BuildHeader(size, metadata, salt, nonce, lib).fields[j])
  {
    HeldWellFormed(h, "kdf");
    KdfSame(Get(h, "kdf").value, salt, lib);
    HeaderMatches(h, size, metadata, salt, nonce, lib);
  }

  lemma AcceptedSame(h: Json, size: nat, metadata: Json, salt: Bytes, nonce: Bytes, lib: Library)
    requires h.Obj? && KeySet(h.fields) == HEADER_KEYS && WellFormed(h)
    requires forall j :: 0 <= j < 8 ==> HoldsAt(h, BuildHeader(size, metadata, salt, nonce, lib).fields[j])
    ensures Same(h, BuildHeader(size, metadata, salt, nonce, lib))
  {
    HeaderKeys(size, metadata, salt, nonce, lib);
    HeaderSame(h, BuildHeader(size, metadata, salt, nonce, lib));
  }

  lemma ParsedRebuilt(e: Bytes, limit: int, p: Parsed, lib: Library)
    requires Sound(lib) && Parse(e, limit, lib) == Some(p) && LimitAccepted(limit)
    ensures CanonicalMetadata(Some(p.metadata), lib) == Some(p.metadata) && WellFormed(p.metadata)
    ensures HeaderFor(|p.ciphertext|, p.metadata, p.salt, p.nonce, lib) == Some(p.header)
  {
    var raw, c := ParsedParts(e, limit, p, lib);
    ReprintedHeader(raw, p.header, p.metadata, c, lib);
    ParsedFields(e, limit, p, lib);
    KeyHeld(p.header.fields, "metadata");
    ParsedMetadata(p.header, p.metadata, lib);
    CanonicalizeTells(p.metadata, p.metadata, 0, lib.before);
    AcceptedHolds(p.header, |p.ciphertext|, p.metadata, p.salt, p.nonce, lib);
    AcceptedSame(p.header, |p.ciphertext|, p.metadata, p.salt, p.nonce, lib);
    HeaderWellFormed(|p.ciphertext|, p.metadata, p.salt, p.nonce, lib);
    CanonicalizeBlind(p.header, BuildHeader(|p.ciphertext|, p.metadata, p.salt, p.nonce, lib), 0, lib.before);
  }

  lemma {:induction false} KeyHeld(fields: seq<Field>, key: string)
    requires key in KeySet(fields)
    ensures Lookup(fields, key).Some?
  {
    if fields[0].key != key {
      assert fields == [fields[0]] + fields[1..];
      KeyHeld(fields[1..], key);
    }
  }

  /** Encryption under this passphrase, with some salt and nonce, made the envelope of this
      payload and this metadata, which is as clean as decryption returns it. */
  ghost predicate Sealed(e: Bytes, passphrase: string, limit: int, plaintext: Bytes, metadata: Json, lib: Library) {
    && WellFormed(metadata) && CanonicalMetadata(Some(metadata), lib) == Some(metadata)
    && exists salt, nonce :: |salt| == SALT_BYTES && |nonce| == NONCE_BYTES
                             && Encrypt(plaintext, passphrase, Some(metadata), limit, salt, nonce, lib) == Some(e)
  }

  /** What a decryption that returns has parsed and opened. */
  lemma DecryptParts(e: Bytes, passphrase: string, limit: int, plaintext: Bytes, metadata: Json, lib: Library) returns (p: Parsed)
    requires Sound(lib) && Decrypt(e, passphrase, limit, lib) == Some((plaintext, metadata))
    ensures Parse(e, limit, lib) == Some(p) && p.metadata == metadata && LimitAccepted(limit) && PassphraseAccepted(passphrase, lib)
    ensures lib.seal(lib.key(passphrase, p.salt), p.nonce, p.aad, plaintext) == (p.ciphertext, p.tag)
    ensures |plaintext| == |p.ciphertext|
  {
    p := Parse(e, limit, lib).value;
    SealedSizes(lib.key(passphrase, p.salt), p.nonce, p.aad, plaintext, lib);
  }

  /** Whatever decryption returns was sealed under that passphrase, byte for byte. */
  lemma EncryptOfDecrypt(e: Bytes, passphrase: string, limit: int, plaintext: Bytes, metadata: Json, lib: Library)
    requires Sound(lib) && Decrypt(e, passphrase, limit, lib) == Some((plaintext, metadata))
    ensures Sealed(e, passphrase, limit, plaintext, metadata, lib)
  {
    var p := DecryptParts(e, passphrase, limit, plaintext, metadata, lib);
    ParsedFields(e, limit, p, lib);
    ParsedRebuilt(e, limit, p, lib);
    AcceptedForm(e, limit, p, lib);
    assert Encrypt(plaintext, passphrase, Some(metadata), limit, p.salt, p.nonce, lib) == Some(e);
  }

  /** Decryption returns a payload and its metadata exactly if the envelope is the one that
      encryption makes of them under the same passphrase, for some salt and nonce. */
  lemma DecryptsIff(e: Bytes, passphrase: string, limit: int, plaintext: Bytes, metadata: Json, lib: Library)
    requires Sound(lib)
    ensures Decrypt(e, passphrase, limit, lib) == Some((plaintext, metadata)) <==>
            Sealed(e, passphrase, limit, plaintext, metadata, lib)
  {
    if Decrypt(e, passphrase, limit, lib) == Some((plaintext, metadata)) {
      EncryptOfDecrypt(e, passphrase, limit, plaintext, metadata, lib);
    }
    if Sealed(e, passphrase, limit, plaintext, metadata, lib) {
      var salt, nonce :| |salt| == SALT_BYTES && |nonce| == NONCE_BYTES
                         && Encrypt(plaintext, passphrase, Some(metadata), limit, salt, nonce, lib) == Some(e);
      RoundTrip(plaintext, passphrase, Some(metadata), limit, salt, nonce, limit, lib);
    }
  }
}
