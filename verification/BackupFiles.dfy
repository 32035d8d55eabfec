/** Encrypting and decrypting backup files chunk by chunk. */
module BackupFiles {
  import opened Wrappers
  import opened BackupEnvelope

  class Disk {
    var files: map<string, Bytes>
    var space: nat                 // bytes that can still be written

    constructor (space: nat)
      ensures files == map[] && this.space == space
    {
      files := map[];
      this.space := space;
    }

    /** O_CREAT with O_EXCL */
    method Create(path: string) returns (created: bool)
      modifies this`files
      ensures created <==> path !in old(files)
      ensures files == if created then old(files)[path := []] else old(files)
    {
      created := path !in files;
      if created {
        files := files[path := []];
      }
    }

    /** A write that does not fit leaves what did fit. */
    method Append(path: string, data: Bytes) returns (written: bool)
      requires path in files
      modifies this
      ensures written <==> |data| <= old(space)
      ensures files == old(files)[path := old(files)[path] + (if written then data else data[..old(space)])]
      ensures space == if written then old(space) - |data| else 0
    {
      written := |data| <= space;
      if written {
        files := files[path := files[path] + data];
        space := space - |data|;
      } else {
        files := files[path := files[path] + data[..space]];
        space := 0;
      }
    }

    method Unlink(path: string)
      modifies this`files
      ensures files == old(files) - {path}
    {
      files := files - {path};
    }
  }

  class BackupFileCipher {
    const aead: Aead
    const disk: Disk
    const chunkBytes: nat

    constructor (aead: Aead, disk: Disk, chunkBytes: nat)
      requires chunkBytes > 0
      ensures this.aead == aead && this.disk == disk && this.chunkBytes == chunkBytes
    {
      this.aead, this.disk, this.chunkBytes := aead, disk, chunkBytes;
    }

    /**
     The destination becomes the envelope of the source; an existing file is never touched. When the disk is
     full the beginning of the envelope stays behind.
     */
    method EncryptFile(source: string, destination: string, key: Key, backupId: Bytes, nonce: Bytes)
      returns (error: Option<EnvelopeError>)
      requires ValidKey(key) && |backupId| == 16 && |nonce| == NONCE_BYTES && chunkBytes > 0
      modifies disk
      ensures source !in old(disk.files) ==> error == Some(SourceMissing) && disk.files == old(disk.files)
      ensures source in old(disk.files) && destination in old(disk.files) ==>
                error == Some(DestinationExists) && disk.files == old(disk.files)
      ensures source in old(disk.files) && destination !in old(disk.files) ==>
                var whole := Envelope(aead, key, backupId, nonce, old(disk.files)[source]);
                if |whole| <= old(disk.space) then
                  error.None? && disk.files == old(disk.files)[destination := whole]
                else
                  error == Some(WriteFailed)
                  && disk.files == old(disk.files)[destination := whole[..old(disk.space)]]
    {
      var header := Header(backupId, key.keyId, nonce);
      if source !in disk.files {
        return Some(SourceMissing);
      }
      var plaintext := disk.files[source];
      var created := disk.Create(destination);
      if !created {
        return Some(DestinationExists);
      }
      PartialEnvelope(aead, key, backupId, nonce, plaintext, 0);
      var written := disk.Append(destination, header);
      if !written {
        CutOff([], header, Envelope(aead, key, backupId, nonce, plaintext), old(disk.space));
        return Some(WriteFailed);
      }
      assert [] + header == header;
      written := WriteBody(destination, plaintext, key, backupId, nonce, header);
      return if written then None else Some(WriteFailed);
    }

    /** The encrypted chunks and the tag, after the header. */
    method WriteBody(destination: string, plaintext: Bytes, key: Key, ghost backupId: Bytes, nonce: Bytes, header: Bytes)
      returns (written: bool)
      requires ValidKey(key) && |backupId| == 16 && |nonce| == NONCE_BYTES && chunkBytes > 0
      requires header == Header(backupId, key.keyId, nonce)
      requires destination in disk.files && disk.files[destination] == header
      modifies disk
      ensures
        var whole := Envelope(aead, key, backupId, nonce, plaintext);
        && (written <==> |whole| <= |header| + old(disk.space))
        && disk.files == old(disk.files)[destination := if written then whole else whole[..|header| + old(disk.space)]]
    {
      ghost var whole := Envelope(aead, key, backupId, nonce, plaintext);
      var position := 0;
      var ciphertext: Bytes := [];     // what the authenticator has taken in
      assert header == header + ciphertext;
      assert disk.files == disk.files[destination := header];
      while position < |plaintext|
        invariant position <= |plaintext|
        invariant ciphertext == Encrypt(aead, key.key, nonce, 0, plaintext[..position])
        invariant disk.files == old(disk.files)[destination := header + ciphertext]
        invariant disk.space + |ciphertext| == old(disk.space)
      {
        var size := if chunkBytes < |plaintext| - position then chunkBytes else |plaintext| - position;
        var chunk := plaintext[position..position + size];
        assert plaintext[..position + size] == plaintext[..position] + chunk;
        ChunksDoNotShow(aead, key.key, nonce, plaintext[..position], chunk);
        var output := Encrypt(aead, key.key, nonce, position, chunk);
        Joined(header, ciphertext, output);
        PartialEnvelope(aead, key, backupId, nonce, plaintext, position + size);
        ghost var space := disk.space;
        written := disk.Append(destination, output);
        if !written {
          CutOff(header + ciphertext, output, whole, space);
          return;
        }
        ciphertext := ciphertext + output;
        position := position + size;
      }
      assert plaintext[..|plaintext|] == plaintext;
      var tag := aead.tag(key.key, nonce, header, ciphertext);
      assert whole == header + ciphertext + tag;
      ghost var space := disk.space;
      written := disk.Append(destination, tag);
      if !written { CutOff(header + ciphertext, tag, whole, space); }
    }

    /**
     The destination becomes what the source opens to; when it does not open, or does not fit, the disk is as
     before, even though chunks were written before the tag was known to be wrong.
     */
    method DecryptFile(source: string, destination: string, key: Key, expectedId: Bytes)
      returns (error: Option<EnvelopeError>)
      requires chunkBytes > 0
      modifies disk
      ensures source !in old(disk.files) ==> error == Some(SourceMissing)
      ensures source in old(disk.files) && destination in old(disk.files) ==>
                error ==
                  match ParseHeader(old(disk.files)[source], key, expectedId)
                  case Err(e) => Some(e)
                  case Ok(h) =>
                    if |old(disk.files)[source]| < h.length + TAG_BYTES then Some(EnvelopeInvalid) else Some(DestinationExists)
      ensures source in old(disk.files) && destination !in old(disk.files) ==>
                if BodySize(old(disk.files)[source], key, expectedId) > old(disk.space) then error == Some(WriteFailed)
                else
                  match Open(aead, key, expectedId, old(disk.files)[source])
                  case Ok(plaintext) => error.None? && disk.files == old(disk.files)[destination := plaintext]
                  case Err(e) => error == Some(e)
      ensures error.Some? ==> disk.files == old(disk.files)
    {
      if source !in disk.files {
        return Some(SourceMissing);
      }
      var file := disk.files[source];
      var parsed := ParseHeader(file, key, expectedId);
      if parsed.Err? {
        return Some(parsed.error);
      }
      var headerSize := parsed.value.length;
      if |file| < headerSize + TAG_BYTES {
        return Some(EnvelopeInvalid);
      }
      var header, nonce := file[..headerSize], parsed.value.nonce;
      var ciphertextSize := |file| - headerSize - TAG_BYTES;
      var tag := file[|file| - TAG_BYTES..];
      var ciphertext := file[headerSize..|file| - TAG_BYTES];     // what the authenticator takes in
      var created := disk.Create(destination);
      if !created {
        return Some(DestinationExists);
      }
      var written := WriteChunks(file, destination, key, nonce, headerSize, ciphertextSize);
      if !written {
        disk.Unlink(destination);
        assert disk.files == old(disk.files);
        return Some(WriteFailed);
      }
      if tag != aead.tag(key.key, nonce, header, ciphertext) {
        disk.Unlink(destination);
        assert disk.files == old(disk.files);
        return Some(AuthenticationFailed);
      }
      return None;
    }

    /** The loop over the ciphertext: exactly its bytes are read, and written decrypted while they fit. */
    method WriteChunks(file: Bytes, destination: string, key: Key, nonce: Bytes, headerSize: nat, ciphertextSize: nat)
      returns (written: bool)
      requires chunkBytes > 0 && headerSize + ciphertextSize <= |file|
      requires destination in disk.files && disk.files[destination] == []
      modifies disk
      ensures written <==> ciphertextSize <= old(disk.space)
      ensures written ==>
                disk.files == old(disk.files)[destination :=
                  Decrypt(aead, key.key, nonce, 0, file[headerSize..headerSize + ciphertextSize])]
      ensures disk.files - {destination} == old(disk.files) - {destination}
    {
      ghost var ciphertext := file[headerSize..headerSize + ciphertextSize];
      var remaining := ciphertextSize;
      ghost var seen: Bytes := [];
      assert disk.files == disk.files[destination := []];
      while remaining > 0
        invariant 0 <= remaining <= ciphertextSize
        invariant seen == ciphertext[..ciphertextSize - remaining]
        invariant disk.files == old(disk.files)[destination := Decrypt(aead, key.key, nonce, 0, seen)]
        invariant disk.space + |seen| == old(disk.space)
      {
        var size := if chunkBytes < remaining then chunkBytes else remaining;
        var at := headerSize + ciphertextSize - remaining;
        var chunk := file[at..at + size];
        SliceOfSlice(file, headerSize, headerSize + ciphertextSize, |seen|, |seen| + size);
        assert seen + chunk == ciphertext[..|seen| + size];
        ChunksDoNotShow(aead, key.key, nonce, seen, chunk);
        written := disk.Append(destination, Decrypt(aead, key.key, nonce, ciphertextSize - remaining, chunk));
        if !written {
          return;
        }
        seen := seen + chunk;
        remaining := remaining - size;
      }
      assert seen == ciphertext;
      return true;
    }
  }

  /** How many bytes a well-formed file decrypts to; none for any other. */
  function BodySize(file: Bytes, key: Key, expectedId: Bytes): nat {
    match ParseHeader(file, key, expectedId)
    case Err(_) => 0
    case Ok(h) => if |file| < h.length + TAG_BYTES then 0 else |file| - h.length - TAG_BYTES
  }

  lemma Joined(a: Bytes, b: Bytes, c: Bytes)
    ensures a + b + c == a + (b + c)
  {
  }

  /** What has been written before the tag is always a beginning of the envelope. */
  lemma PartialEnvelope(aead: Aead, key: Key, backupId: Bytes, nonce: Bytes, plaintext: Bytes, position: nat)
    requires ValidKey(key) && |backupId| == 16 && |nonce| == NONCE_BYTES && position <= |plaintext|
    ensures
      var header := Header(backupId, key.keyId, nonce);
      && header + Encrypt(aead, key.key, nonce, 0, plaintext[..position])
           <= Envelope(aead, key, backupId, nonce, plaintext)
      && header <= Envelope(aead, key, backupId, nonce, plaintext)
  {
    var front, rest := plaintext[..position], plaintext[position..];
    assert plaintext == front + rest;
    ChunksDoNotShow(aead, key.key, nonce, front, rest);
  }

  /** A write that did not fit, seen from the whole file. */
  lemma CutOff(before: Bytes, data: Bytes, whole: Bytes, space: nat)
    requires before + data <= whole && space < |data|
    ensures before + data[..space] == whole[..|before| + space]
  {
    var cut := before + data[..space];
    forall i | 0 <= i < |cut| ensures cut[i] == whole[i] {
      assert cut[i] == (before + data)[i];
    }
  }

  lemma SliceOfSlice(file: Bytes, a: nat, b: nat, i: nat, j: nat)
    requires a <= b <= |file| && i <= j <= b - a
    ensures file[a..b][i..j] == file[a + i..a + j]
  {
    assert |file[a..b][i..j]| == |file[a + i..a + j]|;
    forall k | 0 <= k < j - i ensures file[a..b][i..j][k] == file[a + i..a + j][k] {
      assert file[a..b][i..j][k] == file[a..b][i + k] == file[a + (i + k)];
    }
  }
}
