/**
 The encrypted backup file: a header that names the backup and the key, the ciphertext, and a tag
 over both. The cipher is a stream cipher with an authentication tag, as in sections 7.1 and 7.2 of
 NIST SP 800-38D: it works byte by byte, and what it does to byte i depends on key, nonce and i. How
 it combines a byte with its key stream, and the tag, are left abstract.
 */
module BackupEnvelope {
  import opened Wrappers

  type Byte = b: int | 0 <= b < 256
  type Bytes = seq<Byte>

  /** Byte-wise encryption and decryption at a position, and the tag of header and ciphertext. */
  datatype Aead = Aead(
    encrypt: (Bytes, Bytes, nat, Byte) -> Byte,
    decrypt: (Bytes, Bytes, nat, Byte) -> Byte,
    tag: (Bytes, Bytes, Bytes, Bytes) -> Bytes)

  ghost predicate Lawful(aead: Aead) {
    && (forall key, nonce, i, b :: aead.decrypt(key, nonce, i, aead.encrypt(key, nonce, i, b)) == b)
    && (forall key, nonce, i, b :: aead.encrypt(key, nonce, i, aead.decrypt(key, nonce, i, b)) == b)
    && (forall key, nonce, header, ciphertext :: |aead.tag(key, nonce, header, ciphertext)| == TAG_BYTES)
  }

  const MAGIC: Bytes := [0x50, 0x47, 0x42, 0x41, 0x43, 0x4B, 0x55, 0x50]     // PGBACKUP
  const VERSION_BYTE: Byte := 1
  const NONCE_BYTES: nat := 12
  const TAG_BYTES: nat := 16
  const FIXED_BYTES: nat := 27       // magic, version, backup id, length of the key id

  datatype Key = Key(keyId: string, key: Bytes)

  datatype EnvelopeError =
    | EnvelopeInvalid | VersionUnsupported | IdentityMismatch | AuthenticationFailed
    | SourceMissing | DestinationExists | WriteFailed

  // ----- key ids -----

  predicate KeyIdChar(c: char) {
    'A' <= c <= 'Z' || 'a' <= c <= 'z' || '0' <= c <= '9' || c == '.' || c == '_' || c == '-'
  }

  predicate KeyIdStart(c: char) {
    'A' <= c <= 'Z' || 'a' <= c <= 'z' || '0' <= c <= '9'
  }

  predicate ValidKey(key: Key) {
    && 1 <= |key.keyId| <= 64 && KeyIdStart(key.keyId[0])
    && (forall i | 0 <= i < |key.keyId| :: KeyIdChar(key.keyId[i]))
    && |key.key| == 32
  }

  predicate Ascii(s: string) {
    forall i | 0 <= i < |s| :: s[i] as int < 128
  }

  function EncodeAscii(s: string): (b: Bytes)
    requires Ascii(s)
    ensures |b| == |s| && forall i | 0 <= i < |b| :: b[i] == s[i] as int
  {
    seq(|s|, i requires 0 <= i < |s| => s[i] as int)
  }

  function DecodeAscii(b: Bytes): (s: Option<string>)
    ensures s.Some? <==> forall i | 0 <= i < |b| :: b[i] < 128
    ensures s.Some? ==> |s.value| == |b| && forall i | 0 <= i < |b| :: s.value[i] as int == b[i]
  {
    if forall i | 0 <= i < |b| :: b[i] < 128 then Some(seq(|b|, i requires 0 <= i < |b| => b[i] as char)) else None
  }

  lemma DecodeEncode(s: string)
    requires Ascii(s)
    ensures DecodeAscii(EncodeAscii(s)) == Some(s)
  {
    var back := DecodeAscii(EncodeAscii(s)).value;
    forall i | 0 <= i < |s| ensures back[i] == s[i] {
      assert back[i] as int == s[i] as int;
    }
    assert back == s;
  }

  lemma EncodeDecode(b: Bytes)
    requires DecodeAscii(b).Some?
    ensures Ascii(DecodeAscii(b).value) && EncodeAscii(DecodeAscii(b).value) == b
  {
  }

  // ----- the header -----

  /** struct.pack(">H", n) */
  function Pack16(n: nat): (b: Bytes)
    requires n < 65536
    ensures |b| == 2 && Unpack16(b[0], b[1]) == n
  {
    [n / 256, n % 256]
  }

  function Unpack16(high: Byte, low: Byte): (n: nat)
    ensures n < 65536
  {
    high * 256 + low
  }

  lemma PackUnpack(high: Byte, low: Byte)
    ensures Pack16(Unpack16(high, low)) == [high, low]
  {
  }

  function Header(backupId: Bytes, keyId: string, nonce: Bytes): (h: Bytes)
    requires |backupId| == 16 && Ascii(keyId) && |keyId| < 65536 && |nonce| == NONCE_BYTES
    ensures |h| == FIXED_BYTES + |keyId| + NONCE_BYTES
  {
    MAGIC + [VERSION_BYTE] + backupId + Pack16(|keyId|) + EncodeAscii(keyId) + nonce
  }

  datatype ParsedHeader = ParsedHeader(length: nat, keyId: string, nonce: Bytes)

  /** The header tests of decrypt_file, in order. */
  function ParseHeader(file: Bytes, key: Key, expectedId: Bytes): (r: Result<ParsedHeader, EnvelopeError>)
    ensures r.Ok? ==> r.value.length <= |file| && |r.value.nonce| == NONCE_BYTES
  {
    if |file| < FIXED_BYTES then Err(EnvelopeInvalid)
    else if file[..8] != MAGIC then Err(EnvelopeInvalid)
    else if file[8] != VERSION_BYTE then Err(VersionUnsupported)
    else
      var size := Unpack16(file[25], file[26]);
      var length := FIXED_BYTES + size + NONCE_BYTES;
      if |file| < length then Err(EnvelopeInvalid)
      else
        match DecodeAscii(file[FIXED_BYTES..FIXED_BYTES + size])
        case None => Err(EnvelopeInvalid)
        case Some(keyId) =>
          if file[9..25] != expectedId || keyId != key.keyId then Err(IdentityMismatch)
          else Ok(ParsedHeader(length, keyId, file[FIXED_BYTES + size..length]))
  }

  /** Where the parts of a header lie in a file that starts with it. */
  lemma HeaderSlices(file: Bytes, backupId: Bytes, id: Bytes, size: Bytes, nonce: Bytes, rest: Bytes)
    requires |backupId| == 16 && |size| == 2 && |nonce| == NONCE_BYTES
    requires file == MAGIC + [VERSION_BYTE] + backupId + size + id + nonce + rest
    ensures |file| == FIXED_BYTES + |id| + NONCE_BYTES + |rest|
    ensures file[..8] == MAGIC && file[8] == VERSION_BYTE && file[9..25] == backupId
    ensures file[25] == size[0] && file[26] == size[1]
    ensures file[FIXED_BYTES..FIXED_BYTES + |id|] == id
    ensures file[FIXED_BYTES + |id|..FIXED_BYTES + |id| + NONCE_BYTES] == nonce
  {
  }

  /** Parsing inverts printing, whatever follows the header. */
  lemma ParseInvertsPrint(backupId: Bytes, key: Key, nonce: Bytes, rest: Bytes)
    requires ValidKey(key) && |backupId| == 16 && |nonce| == NONCE_BYTES
    ensures Ascii(key.keyId)
    ensures
      var header := Header(backupId, key.keyId, nonce);
      ParseHeader(header + rest, key, backupId) == Ok(ParsedHeader(|header|, key.keyId, nonce))
  {
    DecodeEncode(key.keyId);
    HeaderSlices(Header(backupId, key.keyId, nonce) + rest, backupId, EncodeAscii(key.keyId), Pack16(|key.keyId|), nonce,
                 rest);
  }

  /** What the parser has established when it succeeds. */
  lemma ParsedFacts(file: Bytes, key: Key, backupId: Bytes) returns (id: Bytes, size: nat)
    requires |backupId| == 16 && ParseHeader(file, key, backupId).Ok?
    ensures |file| >= FIXED_BYTES && size == Unpack16(file[25], file[26]) < 65536
    ensures
      var h := ParseHeader(file, key, backupId).value;
      && |file| >= h.length == FIXED_BYTES + size + NONCE_BYTES
      && file[..8] == MAGIC && file[8] == VERSION_BYTE && file[9..25] == backupId
      && id == file[FIXED_BYTES..FIXED_BYTES + size] && h.nonce == file[FIXED_BYTES + size..h.length]
      && h.keyId == key.keyId && DecodeAscii(id) == Some(key.keyId)
  {
    size := Unpack16(file[25], file[26]);
    id := file[FIXED_BYTES..FIXED_BYTES + size];
  }

  /** A header that parses is the one that printing would give. */
  lemma PrintInvertsParse(file: Bytes, key: Key, backupId: Bytes)
    requires |backupId| == 16 && ParseHeader(file, key, backupId).Ok?
    ensures Ascii(key.keyId) && |key.keyId| < 65536
    ensures
      var h := ParseHeader(file, key, backupId).value;
      h.keyId == key.keyId && file[..h.length] == Header(backupId, key.keyId, h.nonce)
  {
    var id, size := ParsedFacts(file, key, backupId);
    var h := ParseHeader(file, key, backupId).value;
    EncodeDecode(id);
    HeaderParts(file, h.length, id, backupId, h.nonce, size);
    HeaderOf(backupId, key.keyId, h.nonce, id, size, file[25], file[26]);
  }

  lemma HeaderOf(backupId: Bytes, keyId: string, nonce: Bytes, id: Bytes, size: nat, high: Byte, low: Byte)
    requires |backupId| == 16 && |nonce| == NONCE_BYTES && Ascii(keyId) && |keyId| == size < 65536
    requires id == EncodeAscii(keyId) && size == Unpack16(high, low)
    ensures Header(backupId, keyId, nonce) == MAGIC + [VERSION_BYTE] + backupId + [high, low] + id + nonce
  {
    PackUnpack(high, low);
  }

  lemma HeaderParts(file: Bytes, length: nat, id: Bytes, backupId: Bytes, nonce: Bytes, size: nat)
    requires |file| >= length == FIXED_BYTES + size + NONCE_BYTES
    requires file[..8] == MAGIC && file[8] == VERSION_BYTE && file[9..25] == backupId
    requires id == file[FIXED_BYTES..FIXED_BYTES + size] && nonce == file[FIXED_BYTES + size..length]
    ensures file[..length] == MAGIC + [VERSION_BYTE] + backupId + [file[25], file[26]] + id + nonce
  {
    assert file[..length] == file[..8] + [file[8]] + file[9..25] + [file[25], file[26]] + id + nonce;
  }

  // ----- the cipher -----

  function Encrypt(aead: Aead, key: Bytes, nonce: Bytes, position: nat, data: Bytes): (r: Bytes)
    ensures |r| == |data| && forall i | 0 <= i < |r| :: r[i] == aead.encrypt(key, nonce, position + i, data[i])
  {
    seq(|data|, i requires 0 <= i < |data| => aead.encrypt(key, nonce, position + i, data[i]))
  }

  function Decrypt(aead: Aead, key: Bytes, nonce: Bytes, position: nat, data: Bytes): (r: Bytes)
    ensures |r| == |data| && forall i | 0 <= i < |r| :: r[i] == aead.decrypt(key, nonce, position + i, data[i])
  {
    seq(|data|, i requires 0 <= i < |data| => aead.decrypt(key, nonce, position + i, data[i]))
  }

  lemma DecryptEncrypt(aead: Aead, key: Bytes, nonce: Bytes, data: Bytes)
    requires Lawful(aead)
    ensures Decrypt(aead, key, nonce, 0, Encrypt(aead, key, nonce, 0, data)) == data
    ensures Encrypt(aead, key, nonce, 0, Decrypt(aead, key, nonce, 0, data)) == data
  {
  }

  /** Chunk boundaries do not show in the output. */
  lemma ChunksDoNotShow(aead: Aead, key: Bytes, nonce: Bytes, a: Bytes, b: Bytes)
    ensures Encrypt(aead, key, nonce, 0, a + b) == Encrypt(aead, key, nonce, 0, a) + Encrypt(aead, key, nonce, |a|, b)
    ensures Decrypt(aead, key, nonce, 0, a + b) == Decrypt(aead, key, nonce, 0, a) + Decrypt(aead, key, nonce, |a|, b)
  {
    var encrypted := Encrypt(aead, key, nonce, 0, a) + Encrypt(aead, key, nonce, |a|, b);
    var decrypted := Decrypt(aead, key, nonce, 0, a) + Decrypt(aead, key, nonce, |a|, b);
    forall i | 0 <= i < |a + b|
      ensures Encrypt(aead, key, nonce, 0, a + b)[i] == encrypted[i] && Decrypt(aead, key, nonce, 0, a + b)[i] == decrypted[i]
    {
      if i >= |a| { assert |a| + (i - |a|) == i; }
    }
  }

  // ----- the envelope -----

  function Envelope(aead: Aead, key: Key, backupId: Bytes, nonce: Bytes, plaintext: Bytes): Bytes
    requires |backupId| == 16 && Ascii(key.keyId) && |key.keyId| < 65536 && |nonce| == NONCE_BYTES
  {
    var header := Header(backupId, key.keyId, nonce);
    var ciphertext := Encrypt(aead, key.key, nonce, 0, plaintext);
    header + ciphertext + aead.tag(key.key, nonce, header, ciphertext)
  }

  /** What a file decrypts to. */
  function Open(aead: Aead, key: Key, expectedId: Bytes, file: Bytes): Result<Bytes, EnvelopeError> {
    match ParseHeader(file, key, expectedId)
    case Err(e) => Err(e)
    case Ok(h) =>
      if |file| < h.length + TAG_BYTES then Err(EnvelopeInvalid)
      else
        var ciphertext := file[h.length..|file| - TAG_BYTES];
        if file[|file| - TAG_BYTES..] != aead.tag(key.key, h.nonce, file[..h.length], ciphertext) then
          Err(AuthenticationFailed)
        else Ok(Decrypt(aead, key.key, h.nonce, 0, ciphertext))
  }

  /** The three parts of a file whose lengths are known. */
  lemma FileParts(header: Bytes, ciphertext: Bytes, tag: Bytes)
    requires |tag| == TAG_BYTES
    ensures
      var file := header + ciphertext + tag;
      && file == header + (ciphertext + tag)
      && file[..|header|] == header && file[|header|..|file| - TAG_BYTES] == ciphertext
      && file[|file| - TAG_BYTES..] == tag
  {
  }

  /** Decrypting an encrypted backup under the same key and id gives back every byte. */
  lemma RoundTrip(aead: Aead, key: Key, backupId: Bytes, nonce: Bytes, plaintext: Bytes)
    requires Lawful(aead) && ValidKey(key) && |backupId| == 16 && |nonce| == NONCE_BYTES
    ensures Ascii(key.keyId)
    ensures Open(aead, key, backupId, Envelope(aead, key, backupId, nonce, plaintext)) == Ok(plaintext)
  {
    var header := Header(backupId, key.keyId, nonce);
    var ciphertext := Encrypt(aead, key.key, nonce, 0, plaintext);
    var tag := aead.tag(key.key, nonce, header, ciphertext);
    FileParts(header, ciphertext, tag);
    ParseInvertsPrint(backupId, key, nonce, ciphertext + tag);
    DecryptEncrypt(aead, key.key, nonce, plaintext);
  }

  ghost predicate IsEnvelope(aead: Aead, key: Key, backupId: Bytes, nonce: Bytes, plaintext: Bytes, file: Bytes) {
    && |backupId| == 16 && Ascii(key.keyId) && |key.keyId| < 65536 && |nonce| == NONCE_BYTES
    && file == Envelope(aead, key, backupId, nonce, plaintext)
  }

  /** A file that opens was printed from its plaintext and the nonce in its header. */
  lemma OpenedIsEnvelope(aead: Aead, key: Key, backupId: Bytes, file: Bytes, plaintext: Bytes) returns (nonce: Bytes)
    requires Lawful(aead) && |backupId| == 16 && Open(aead, key, backupId, file) == Ok(plaintext)
    ensures IsEnvelope(aead, key, backupId, nonce, plaintext, file)
  {
    PrintInvertsParse(file, key, backupId);
    var h := ParseHeader(file, key, backupId).value;
    nonce := h.nonce;
    var ciphertext := file[h.length..|file| - TAG_BYTES];
    DecryptEncrypt(aead, key.key, nonce, ciphertext);
    assert file == file[..h.length] + ciphertext + file[|file| - TAG_BYTES..];
  }

  /** Only envelopes decrypt, and to nothing but their plaintext. */
  lemma OnlyEnvelopesOpen(aead: Aead, key: Key, backupId: Bytes, file: Bytes, plaintext: Bytes)
    requires Lawful(aead) && ValidKey(key) && |backupId| == 16
    ensures Open(aead, key, backupId, file) == Ok(plaintext) <==>
              exists nonce :: IsEnvelope(aead, key, backupId, nonce, plaintext, file)
  {
    if Open(aead, key, backupId, file) == Ok(plaintext) {
      var nonce := OpenedIsEnvelope(aead, key, backupId, file, plaintext);
    }
    if nonce :| IsEnvelope(aead, key, backupId, nonce, plaintext, file) {
      RoundTrip(aead, key, backupId, nonce, plaintext);
    }
  }

  /** A backup of another id, or under another key id, is refused before anything is decrypted. */
  lemma OtherIdentityRefused(aead: Aead, key: Key, backupId: Bytes, nonce: Bytes, plaintext: Bytes, other: Key, otherId: Bytes)
    requires Lawful(aead) && ValidKey(key) && |backupId| == 16 && |nonce| == NONCE_BYTES
    requires otherId != backupId || other.keyId != key.keyId
    ensures Ascii(key.keyId)
    ensures Open(aead, other, otherId, Envelope(aead, key, backupId, nonce, plaintext)) == Err(IdentityMismatch)
  {
    var header := Header(backupId, key.keyId, nonce);
    var ciphertext := Encrypt(aead, key.key, nonce, 0, plaintext);
    var tag := aead.tag(key.key, nonce, header, ciphertext);
    FileParts(header, ciphertext, tag);
    ParseInvertsPrint(backupId, key, nonce, ciphertext + tag);
    SameFields(header + (ciphertext + tag), key, backupId, other, otherId);
  }

  /**
   What follows an honest header decides: fewer than 16 bytes are no envelope, and otherwise the last 16 must be the
   tag of header and body. Another version byte or another magic is refused as such.
   */
  lemma TamperingRefused(aead: Aead, key: Key, backupId: Bytes, nonce: Bytes, rest: Bytes, i: nat, b: Byte)
    requires ValidKey(key) && |backupId| == 16 && |nonce| == NONCE_BYTES
    ensures Ascii(key.keyId)
    ensures
      var header := Header(backupId, key.keyId, nonce);
      var file := header + rest;
      if |rest| < 16 then Open(aead, key, backupId, file) == Err(EnvelopeInvalid)
      else
        var body, tag := rest[..|rest| - 16], rest[|rest| - 16..];
        Open(aead, key, backupId, file) ==
          if tag == aead.tag(key.key, nonce, header, body) then Ok(Decrypt(aead, key.key, nonce, 0, body))
          else Err(AuthenticationFailed)
    ensures
      var file := Header(backupId, key.keyId, nonce) + rest;
      && (i < 8 && b != file[i] ==> Open(aead, key, backupId, file[i := b]) == Err(EnvelopeInvalid))
      && (b != 1 ==> Open(aead, key, backupId, file[8 := b]) == Err(VersionUnsupported))
  {
    var header := Header(backupId, key.keyId, nonce);
    var file := header + rest;
    ParseInvertsPrint(backupId, key, nonce, rest);
    assert file[..|header|] == header;
    if |rest| >= 16 {
      assert file[|header|..|file| - TAG_BYTES] == rest[..|rest| - 16];
      assert file[|file| - TAG_BYTES..] == rest[|rest| - 16..];
    }
    assert file[..8] == MAGIC && file[8] == VERSION_BYTE;
    if i < 8 && b != file[i] {
      assert file[i := b][..8][i] == b && MAGIC[i] == file[..8][i];
    }
    assert file[8 := b][..8] == file[..8];
  }

  /** The identity test comes after the format tests, which do not depend on the expected identity. */
  lemma SameFields(file: Bytes, key: Key, backupId: Bytes, other: Key, otherId: Bytes)
    requires ParseHeader(file, key, backupId).Ok?
    requires otherId != backupId || other.keyId != key.keyId
    ensures ParseHeader(file, other, otherId) == Err(IdentityMismatch)
  {
  }
}
