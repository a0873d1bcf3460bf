/** Single-shot files, and the operations that accept either format by its magic. */
module EncryptedFile {
  import opened ByteStrings
  import opened Crypto
  import opened HashTrailer
  import opened StreamFormat
  import opened StreamCodec
  import opened StreamTheorems

  const SINGLE_MAGIC: Bytes := [0x49, 0x44, 0x01]
  const MIN_SINGLE_FILE_LEN := 63
  const ENCRYPTION_OVERHEAD := 63

  /** The single-shot file of a plaintext. */
  function SingleFile(a: Aead, h: Hash, key: Bytes, nonce: Bytes, plaintext: Bytes): Bytes {
    Trailed(h, SINGLE_MAGIC + nonce + a.seal(key, nonce, plaintext))
  }

  datatype SingleOutcome = Opened(plaintext: Bytes) | TooShort | BadMagic | FileHashMismatch | OpenFailed

  function SingleDecoded(a: Aead, h: Hash, key: Bytes, blob: Bytes): SingleOutcome {
    if |blob| < MIN_SINGLE_FILE_LEN then TooShort
    else if blob[..MAGIC_LEN] != SINGLE_MAGIC then BadMagic
    else if !Verdict(h, blob).Intact? then FileHashMismatch
    else
      match a.open(key, Content(blob)[MAGIC_LEN..MAGIC_LEN + NONCE_LEN], Content(blob)[MAGIC_LEN + NONCE_LEN..])
      case None => OpenFailed
      case Some(p) => Opened(p)
  }

  /** The file is 63 bytes longer than the plaintext, passes the key-free check, and opens to the plaintext under its key. */
  method EncryptFileBytes(a: Aead, h: Hash, key: Bytes, nonce: Bytes, plaintext: Bytes) returns (blob: Bytes)
    requires LawfulAead(a) && LawfulHash(h) && |nonce| == NONCE_LEN
    ensures |blob| == |plaintext| + ENCRYPTION_OVERHEAD
    ensures Verdict(h, blob).Intact? && !IsStreamFormat(blob)
    ensures blob[MAGIC_LEN..MAGIC_LEN + NONCE_LEN] == nonce
    ensures Plaintext(a, h, key, blob) == Some(plaintext)
    ensures blob == SingleFile(a, h, key, nonce, plaintext)
  {
    SingleLayout(a, h, key, nonce, plaintext);
    var sealed := a.seal(key, nonce, plaintext);
    blob := SINGLE_MAGIC;
    blob := blob + nonce;
    blob := blob + sealed;
    blob := blob + Digest(h, blob);
  }

  /**
    The in-place writer: the buffer is overwritten with its ciphertext, the tag comes out
    detached, and the digest is gathered piece by piece. The file is the same, and its
    write-verify pass cannot fail.
   */
  method EncryptAndWriteFileOwned(a: Aead, h: Hash, key: Bytes, nonce: Bytes, plaintext: Bytes, writeVerify: bool)
    returns (file: Bytes, ok: bool)
    requires LawfulAead(a) && LawfulHash(h) && |nonce| == NONCE_LEN
    ensures ok && file == SingleFile(a, h, key, nonce, plaintext)
  {
    var sealed := a.seal(key, nonce, plaintext);
    assert SealedOpens(a, key, nonce, plaintext);
    var buffer, tag := sealed[..|plaintext|], sealed[|plaintext|..];
    HashPieces(h, nonce, buffer, tag);
    SingleLayout(a, h, key, nonce, plaintext);
    var hasher := h.update(h.init, SINGLE_MAGIC);
    hasher := h.update(hasher, nonce);
    hasher := h.update(hasher, buffer);
    hasher := h.update(hasher, tag);
    file := SINGLE_MAGIC + nonce + buffer + tag;
    assert file == SINGLE_MAGIC + nonce + sealed by {
      assert sealed == buffer + tag;
    }
    file := file + h.final(hasher);
    if writeVerify {
      var check := VerifyFileHash(h, file);
      if !check.Intact? {
        assert false;
        return file, false;
      }
      var readback := DecryptFileBytes(a, h, key, file);
      if !readback.Opened? {
        assert false;
        return file, false;
      }
    }
    return file, true;
  }

  lemma HashPieces(h: Hash, nonce: Bytes, buffer: Bytes, tag: Bytes)
    requires LawfulHash(h)
    ensures h.update(h.update(h.update(h.update(h.init, SINGLE_MAGIC), nonce), buffer), tag)
         == h.update(h.init, SINGLE_MAGIC + nonce + buffer + tag)
  {
    assert UpdatesJoin(h, h.init, SINGLE_MAGIC, nonce);
    assert UpdatesJoin(h, h.init, SINGLE_MAGIC + nonce, buffer);
    assert UpdatesJoin(h, h.init, SINGLE_MAGIC + nonce + buffer, tag);
  }

  method DecryptFileBytes(a: Aead, h: Hash, key: Bytes, blob: Bytes) returns (r: SingleOutcome)
    ensures r == SingleDecoded(a, h, key, blob)
  {
    if |blob| < MIN_SINGLE_FILE_LEN {
      return TooShort;
    }
    if blob[..MAGIC_LEN] != SINGLE_MAGIC {
      return BadMagic;
    }
    var content := blob[..|blob| - FILE_HASH_LEN];
    if Digest(h, content) != blob[|blob| - FILE_HASH_LEN..] {
      return FileHashMismatch;
    }
    var plaintext := a.open(key, content[MAGIC_LEN..MAGIC_LEN + NONCE_LEN], content[MAGIC_LEN + NONCE_LEN..]);
    if plaintext.None? {
      return OpenFailed;
    }
    return Opened(plaintext.value);
  }

  /** A single-shot file takes 63 bytes more than its plaintext, is intact, and opens to the plaintext. */
  lemma SingleLayout(a: Aead, h: Hash, key: Bytes, nonce: Bytes, plaintext: Bytes)
    requires LawfulAead(a) && LawfulHash(h) && |nonce| == NONCE_LEN
    ensures var file := SingleFile(a, h, key, nonce, plaintext);
      && |file| == |plaintext| + ENCRYPTION_OVERHEAD
      && Verdict(h, file).Intact?
      && file[..MAGIC_LEN] == SINGLE_MAGIC
      && file[MAGIC_LEN..MAGIC_LEN + NONCE_LEN] == nonce
      && SingleDecoded(a, h, key, file) == Opened(plaintext)
  {
    var sealed := a.seal(key, nonce, plaintext);
    assert SealedOpens(a, key, nonce, plaintext);
    var content := SINGLE_MAGIC + nonce + sealed;
    TrailedIsIntact(h, content);
    assert content[MAGIC_LEN..MAGIC_LEN + NONCE_LEN] == nonce && content[MAGIC_LEN + NONCE_LEN..] == sealed;
    assert Trailed(h, content)[..MAGIC_LEN] == SINGLE_MAGIC;
    assert Trailed(h, content)[MAGIC_LEN..MAGIC_LEN + NONCE_LEN] == nonce;
  }

  /** Everything ever sealed under this nonce is the one plaintext. */
  ghost predicate OneSeal(a: Aead, key: Bytes, sealed: set<(Bytes, Bytes)>, nonce: Bytes, plaintext: Bytes) {
    forall e :: e in sealed && e.0 == nonce ==> e.1 == a.seal(key, nonce, plaintext)
  }

  /** With an ideal AEAD, a single-shot file that opens is byte for byte the file that was written under its nonce. */
  lemma OpenedSingleIsWritten(a: Aead, h: Hash, key: Bytes, sealed: set<(Bytes, Bytes)>, plaintext: Bytes, file: Bytes)
    requires LawfulAead(a) && LawfulHash(h) && SingleDecoded(a, h, key, file).Opened?
    requires Unforged(a, key, sealed, [Content(file)[MAGIC_LEN + NONCE_LEN..]])
    requires OneSeal(a, key, sealed, file[MAGIC_LEN..MAGIC_LEN + NONCE_LEN], plaintext)
    ensures file == SingleFile(a, h, key, file[MAGIC_LEN..MAGIC_LEN + NONCE_LEN], plaintext)
    ensures SingleDecoded(a, h, key, file) == Opened(plaintext)
  {
    var (content, nonce) := (Content(file), file[MAGIC_LEN..MAGIC_LEN + NONCE_LEN]);
    var segs := [content[MAGIC_LEN + NONCE_LEN..]];
    assert content[MAGIC_LEN..MAGIC_LEN + NONCE_LEN] == nonce;
    assert a.open(key, nonce, segs[0]).Some?;
    assert (nonce, segs[0]) in sealed;
    assert content == SINGLE_MAGIC + nonce + segs[0];
    assert file == content + file[|file| - FILE_HASH_LEN..];
    SingleLayout(a, h, key, nonce, plaintext);
  }

  /** The size shown for a file: its size on disk less the single-shot overhead, never below zero. */
  function PlaintextSizeFromDisk(diskSize: nat): nat {
    if diskSize < ENCRYPTION_OVERHEAD then 0 else diskSize - ENCRYPTION_OVERHEAD
  }

  /**
    Exact for single-shot files. For a chunked upload it is off by 20 per chunk less 21, and exact only when nothing
    was uploaded in at most one chunk.
   */
  lemma ReportedSize(a: Aead, h: Hash, key: Bytes, nonce: Bytes, plaintext: Bytes, stream: Bytes, chunks: seq<Bytes>)
    requires LawfulAead(a) && LawfulHash(h) && |nonce| == NONCE_LEN && |stream| == STREAM_NONCE_LEN
    ensures PlaintextSizeFromDisk(|SingleFile(a, h, key, nonce, plaintext)|) == |plaintext|
    ensures var reported := PlaintextSizeFromDisk(|StreamFile(a, h, key, stream, chunks)|);
      && reported == (if TotalLength(chunks) + 20 * |chunks| < 21 then 0 else TotalLength(chunks) + 20 * |chunks| - 21)
      && (reported == TotalLength(chunks) <==> TotalLength(chunks) == 0 && |chunks| <= 1)
  {
    SingleLayout(a, h, key, nonce, plaintext);
    DiskLength(a, h, key, stream, chunks);
    NoChunksNoBytes(chunks);
  }

  lemma NoChunksNoBytes(chunks: seq<Bytes>)
    ensures |chunks| == 0 ==> TotalLength(chunks) == 0
  {
  }

  // Either format.

  function IsStreamFormat(file: Bytes): bool {
    |file| >= MAGIC_LEN && file[..MAGIC_LEN] == STREAM_MAGIC
  }

  /** The plaintext of a file of either format, or nothing. */
  function Plaintext(a: Aead, h: Hash, key: Bytes, file: Bytes): Option<Bytes> {
    if IsStreamFormat(file) then
      match Decoded(a, h, key, file)
      case Ok(p) => Some(p)
      case Err(_) => None
    else
      match SingleDecoded(a, h, key, file)
      case Opened(p) => Some(p)
      case _ => None
  }

  method ReadAndDecryptFile(a: Aead, h: Hash, key: Bytes, file: Bytes) returns (r: Option<Bytes>)
    ensures r == Plaintext(a, h, key, file)
  {
    if IsStreamFormat(file) {
      var s := StreamDecryptFile(a, h, key, file);
      return if s.Ok? then Some(s.value) else None;
    } else {
      var s := DecryptFileBytes(a, h, key, file);
      return if s.Opened? then Some(s.plaintext) else None;
    }
  }

  /** Whichever writer produced a file, the common reader tells the formats apart and returns the plaintext. */
  lemma ReadsWhatWasWritten(a: Aead, h: Hash, key: Bytes, nonce: Bytes, plaintext: Bytes, stream: Bytes, chunks: seq<Bytes>)
    requires LawfulAead(a) && LawfulHash(h) && |nonce| == NONCE_LEN && |stream| == STREAM_NONCE_LEN
    requires ChunksFit(chunks) && |chunks| <= COUNTER_MAX + 1
    ensures Plaintext(a, h, key, SingleFile(a, h, key, nonce, plaintext)) == Some(plaintext)
    ensures Plaintext(a, h, key, StreamFile(a, h, key, stream, chunks)) == Some(Concat(chunks))
  {
    SingleLayout(a, h, key, nonce, plaintext);
    assert SINGLE_MAGIC[2] != STREAM_MAGIC[2];
    FileLayout(a, h, key, stream, SealedSegments(a, key, stream, chunks));
    RoundTrip(a, h, key, stream, chunks);
  }

  datatype IntegrityStatus = StatusOk | StatusHashMismatch | StatusDecryptionFailed

  /** The two-tier check of scans and listings: trailer first, then, given a key, the tags. */
  method VerifyFileIntegrity(a: Aead, h: Hash, key: Option<Bytes>, file: Bytes) returns (status: IntegrityStatus)
    requires LawfulHash(h)
    ensures status == Status(a, h, key, file)
  {
    var check := VerifyFileHash(h, file);
    if !check.Intact? {
      return StatusHashMismatch;
    }
    if key.None? {
      return StatusOk;
    }
    if IsStreamFormat(file) {
      var s := StreamVerifyDecryption(a, h, key.value, file);
      return if s.Ok? then StatusOk else StatusDecryptionFailed;
    } else {
      var s := DecryptFileBytes(a, h, key.value, file);
      return match s case Opened(_) => StatusOk case FileHashMismatch => StatusHashMismatch case _ => StatusDecryptionFailed;
    }
  }

  function Status(a: Aead, h: Hash, key: Option<Bytes>, file: Bytes): IntegrityStatus {
    if !Verdict(h, file).Intact? then StatusHashMismatch
    else if key.None? then StatusOk
    else if IsStreamFormat(file) then
      if Verified(a, h, key.value, file).Ok? then StatusOk else StatusDecryptionFailed
    else if SingleDecoded(a, h, key.value, file).Opened? then StatusOk else StatusDecryptionFailed
  }

  /** Some content of at least three bytes with its own digest behind it. */
  ghost predicate IsTrailed(h: Hash, file: Bytes) {
    exists content: Bytes :: |content| >= MAGIC_LEN && file == Trailed(h, content)
  }

  /** The second tier passes: the segments of a STREAM file, or the ciphertext of any other, open under the key. */
  predicate OpensUnder(a: Aead, h: Hash, key: Bytes, file: Bytes) {
    if |file| >= 3 && file[..3] == [0x49, 0x44, 0x02] then Verified(a, h, key, file).Ok?
    else SingleDecoded(a, h, key, file).Opened?
  }

  /**
    What each status says. With or without a key a file that does not end in its own digest is a mismatch; without a key
    every other file is fine; with one, exactly those are that open, and the rest have failed to decrypt.
   */
  lemma StatusesMean(a: Aead, h: Hash, key: Option<Bytes>, file: Bytes)
    requires LawfulHash(h)
    ensures var s := Status(a, h, key, file);
      && (s.StatusHashMismatch? <==> !IsTrailed(h, file))
      && (s.StatusOk? <==> IsTrailed(h, file) && (key.Some? ==> OpensUnder(a, h, key.value, file)))
      && (s.StatusDecryptionFailed? <==> IsTrailed(h, file) && key.Some? && !OpensUnder(a, h, key.value, file))
  {
    IntactIffTrailed(h, file);
  }

  /**
    A file that can be downloaded scans clean, with or without the key. A file that scans
    clean with the key can be downloaded unless it is a STREAM file whose segments do not
    tile the space between header and trailer.
   */
  lemma CleanIffReadable(a: Aead, h: Hash, key: Bytes, file: Bytes)
    ensures Plaintext(a, h, key, file).Some? <==>
      && Status(a, h, Some(key), file).StatusOk?
      && (IsStreamFormat(file) ==>
        |file| >= MIN_STREAM_FILE_LEN && exists segs :: Framed(segs) && Tile(segs) == Region(file))
    ensures Plaintext(a, h, key, file).Some? ==> Status(a, h, None, file).StatusOk?
  {
    ReaderIffVerifierOnTilings(a, h, key, file);
  }
}
