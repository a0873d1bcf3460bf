/** The key-free check: every encrypted file ends in the digest of all the bytes before it. */
module HashTrailer {
  import opened ByteStrings
  import opened Crypto

  const MAGIC_LEN := 3
  const HASH_BUF_SIZE := 64 * 1024

  datatype HashCheck = Intact | TooSmall | Mismatch

  /** `content` with its digest appended, as every writer finishes a file. */
  function Trailed(h: Hash, content: Bytes): Bytes {
    content + Digest(h, content)
  }

  /** Everything before the trailer. */
  function Content(file: Bytes): Bytes
    requires |file| >= FILE_HASH_LEN
  {
    file[..|file| - FILE_HASH_LEN]
  }

  function Verdict(h: Hash, file: Bytes): HashCheck {
    if |file| < MAGIC_LEN + FILE_HASH_LEN then TooSmall
    else if Digest(h, Content(file)) == file[|file| - FILE_HASH_LEN..] then Intact
    else Mismatch
  }

  /** A file is intact exactly when it is some content of at least three bytes with its own digest behind it; one without room for that is too small. */
  lemma IntactIffTrailed(h: Hash, file: Bytes)
    requires LawfulHash(h)
    ensures Verdict(h, file).Intact? <==> exists content: Bytes :: |content| >= MAGIC_LEN && file == Trailed(h, content)
    ensures Verdict(h, file).TooSmall? <==> |file| < 35
  {
    if Verdict(h, file).Intact? {
      assert file == Trailed(h, Content(file));
    }
    forall content: Bytes | |content| >= MAGIC_LEN && file == Trailed(h, content)
      ensures Verdict(h, file).Intact?
    {
      TrailedIsIntact(h, content);
    }
  }

  lemma TrailedIsIntact(h: Hash, content: Bytes)
    requires LawfulHash(h)
    ensures |Trailed(h, content)| == |content| + FILE_HASH_LEN
    ensures Content(Trailed(h, content)) == content
    ensures |content| >= MAGIC_LEN ==> Verdict(h, Trailed(h, content)).Intact?
  {
    DigestLength(h, content);
  }

  /** The in-memory check. */
  method VerifyFileHashBytes(h: Hash, blob: Bytes) returns (r: HashCheck)
    ensures r == Verdict(h, blob)
  {
    if |blob| < MAGIC_LEN + FILE_HASH_LEN {
      return TooSmall;
    }
    var content := blob[..|blob| - FILE_HASH_LEN];
    var storedHash := blob[|blob| - FILE_HASH_LEN..];
    if Digest(h, content) != storedHash {
      return Mismatch;
    }
    return Intact;
  }

  /**
    One `read` into a buffer: some bytes, not necessarily all that were asked for,
    and none only at the end of the file. Callers may rely on nothing more.
   */
  method ReadSome(file: Bytes, pos: nat, limit: nat) returns (chunk: Bytes)
    requires pos <= |file| && limit > 0
    ensures |chunk| <= limit && pos + |chunk| <= |file| && chunk == file[pos..pos + |chunk|]
    ensures chunk == [] ==> pos == |file|
  {
    var available := if |file| - pos < limit then |file| - pos else limit;
    var n: nat :| n <= available && (n == 0 ==> available == 0);
    chunk := file[pos..pos + n];
  }

  /** The hasher after the first `pos` bytes of `file`. */
  ghost function Absorbed(h: Hash, file: Bytes, pos: nat): Bytes
    requires pos <= |file|
  {
    if pos == 0 then h.init else h.update(h.init, file[..pos])
  }

  lemma AbsorbMore(h: Hash, file: Bytes, pos: nat, chunk: Bytes)
    requires LawfulHash(h)
    requires chunk != [] && pos + |chunk| <= |file| && chunk == file[pos..pos + |chunk|]
    ensures h.update(Absorbed(h, file, pos), chunk) == Absorbed(h, file, pos + |chunk|)
  {
    if pos > 0 {
      assert UpdatesJoin(h, h.init, file[..pos], chunk);
    }
    assert file[..pos] + chunk == file[..pos + |chunk|];
  }

  /** The streaming check: the same verdict whatever lengths the reads come back with. */
  method VerifyFileHash(h: Hash, file: Bytes) returns (r: HashCheck)
    requires LawfulHash(h)
    ensures r == Verdict(h, file)
  {
    if |file| < MAGIC_LEN + FILE_HASH_LEN {
      return TooSmall;
    }
    var contentLen := |file| - FILE_HASH_LEN;
    var hasher := h.init;
    var remaining, pos := contentLen, 0;
    while remaining > 0
      invariant 0 <= remaining && pos + remaining == contentLen
      invariant hasher == Absorbed(h, file, pos)
    {
      var toRead := if remaining < HASH_BUF_SIZE then remaining else HASH_BUF_SIZE;
      var chunk := ReadSome(file, pos, toRead);
      if chunk == [] {
        assert false;
      }
      AbsorbMore(h, file, pos, chunk);
      hasher := h.update(hasher, chunk);
      pos := pos + |chunk|;
      remaining := remaining - |chunk|;
    }
    if h.final(hasher) != file[pos..] {
      return Mismatch;
    }
    return Intact;
  }
}
