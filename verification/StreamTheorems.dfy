/** What the STREAM container guarantees: round trip, agreement of its two readers, authenticity. */
module StreamTheorems {
  import opened ByteStrings
  import opened Crypto
  import opened HashTrailer
  import opened StreamFormat

  /** Every chunk still fits a 32-bit length once its tag is added. */
  ghost predicate ChunksFit(chunks: seq<Bytes>) {
    forall i :: 0 <= i < |chunks| ==> |chunks[i]| + TAG_LEN < U32_LIMIT
  }

  lemma FileLayout(a: Aead, h: Hash, key: Bytes, stream: Bytes, segs: seq<Bytes>)
    requires LawfulHash(h) && |stream| == STREAM_NONCE_LEN
    ensures var file := Trailed(h, StreamContent(stream, segs));
      && |file| == MIN_STREAM_FILE_LEN + |Tile(segs)|
      && Verdict(h, file).Intact?
      && file[..MAGIC_LEN] == STREAM_MAGIC && StreamNonce(file) == stream && Region(file) == Tile(segs)
  {
    var content := StreamContent(stream, segs);
    TrailedIsIntact(h, content);
    var file := Trailed(h, content);
    assert file[..|content|] == content;
    SliceOfSlice(file, 0, |content|, HEADER_LEN, |content|);
    SliceOfSlice(file, 0, |content|, MAGIC_LEN, HEADER_LEN);
    SliceOfSlice(file, 0, |content|, 0, MAGIC_LEN);
  }

  lemma {:induction false} OpenRunOfSealed(a: Aead, key: Bytes, stream: Bytes, chunks: seq<Bytes>, n: nat)
    requires LawfulAead(a) && n < |chunks| <= COUNTER_MAX + 1
    ensures OpenRun(a, key, stream, SealedSegments(a, key, stream, chunks), n) == Some(Concat(chunks[..n]))
  {
    if n > 0 {
      OpenRunOfSealed(a, key, stream, chunks, n - 1);
      assert SealedOpens(a, key, SegmentNonce(stream, n - 1, false), chunks[n - 1]);
      assert chunks[..n] == chunks[..n - 1] + [chunks[n - 1]];
      ConcatAppend(chunks[..n - 1], chunks[n - 1]);
    }
  }

  lemma LastOfSealedOpens(a: Aead, key: Bytes, stream: Bytes, chunks: seq<Bytes>)
    requires LawfulAead(a) && chunks != []
    ensures var n := |chunks| - 1;
      OpenLast(a, key, stream, n, SealedSegments(a, key, stream, chunks)[n]) == Some(chunks[n])
  {
    assert SealedOpens(a, key, SegmentNonce(stream, |chunks| - 1, true), chunks[|chunks| - 1]);
  }

  lemma ConcatToLast(chunks: seq<Bytes>)
    requires chunks != []
    ensures Concat(chunks) == Concat(chunks[..|chunks| - 1]) + chunks[|chunks| - 1]
  {
    var n := |chunks| - 1;
    assert chunks == chunks[..n] + [chunks[n]];
    ConcatAppend(chunks[..n], chunks[n]);
  }

  lemma OpenAllOfSealed(a: Aead, key: Bytes, stream: Bytes, chunks: seq<Bytes>)
    requires LawfulAead(a) && |chunks| <= COUNTER_MAX + 1
    ensures OpenScanned(a, key, stream, SealedSegments(a, key, stream, chunks), AtEnd) == Ok(Concat(chunks))
  {
    if chunks != [] {
      var n := |chunks| - 1;
      OpenRunOfSealed(a, key, stream, chunks, n);
      LastOfSealedOpens(a, key, stream, chunks);
      ConcatToLast(chunks);
      OpenedToEnd(a, key, stream, SealedSegments(a, key, stream, chunks), Concat(chunks[..n]), chunks[n]);
    }
  }

  lemma OpenedToEnd(a: Aead, key: Bytes, stream: Bytes, segs: seq<Bytes>, before: Bytes, p: Bytes)
    requires segs != [] && OpenRun(a, key, stream, segs, |segs| - 1) == Some(before)
    requires OpenLast(a, key, stream, |segs| - 1, segs[|segs| - 1]) == Some(p)
    ensures OpenScanned(a, key, stream, segs, AtEnd) == Ok(before + p)
  {
  }

  lemma SealedLength(a: Aead, key: Bytes, stream: Bytes, chunks: seq<Bytes>, i: nat)
    requires LawfulAead(a) && i < |chunks|
    ensures |SealedSegments(a, key, stream, chunks)[i]| == |chunks[i]| + TAG_LEN
  {
    assert SealedOpens(a, key, SegmentNonce(stream, i, i + 1 == |chunks|), chunks[i]);
  }

  /** Reading what was written gives back the concatenation of the chunks. */
  lemma RoundTrip(a: Aead, h: Hash, key: Bytes, stream: Bytes, chunks: seq<Bytes>)
    requires LawfulAead(a) && LawfulHash(h) && |stream| == STREAM_NONCE_LEN
    requires ChunksFit(chunks) && |chunks| <= COUNTER_MAX + 1
    ensures Decoded(a, h, key, StreamFile(a, h, key, stream, chunks)) == Ok(Concat(chunks))
  {
    var segs := SealedSegments(a, key, stream, chunks);
    FileLayout(a, h, key, stream, segs);
    forall i | 0 <= i < |segs|
      ensures |segs[i]| < U32_LIMIT
    {
      SealedLength(a, key, stream, chunks, i);
    }
    ScanTiles(segs);
    OpenAllOfSealed(a, key, stream, chunks);
  }

  lemma {:induction false} TileLength(segs: seq<Bytes>)
    ensures |Tile(segs)| == TotalLength(segs) + 4 * |segs|
  {
    if segs != [] {
      TileLength(segs[1..]);
    }
  }

  lemma {:induction false} SealedTotal(a: Aead, key: Bytes, stream: Bytes, chunks: seq<Bytes>, n: nat)
    requires LawfulAead(a) && n <= |chunks|
    ensures TotalLength(SealedSegments(a, key, stream, chunks)[..n]) == TotalLength(chunks[..n]) + TAG_LEN * n
  {
    if n > 0 {
      var segs := SealedSegments(a, key, stream, chunks);
      SealedTotal(a, key, stream, chunks, n - 1);
      SealedLength(a, key, stream, chunks, n - 1);
      assert segs[..n] == segs[..n - 1] + [segs[n - 1]] && chunks[..n] == chunks[..n - 1] + [chunks[n - 1]];
      ConcatAppend(segs[..n - 1], segs[n - 1]);
      ConcatAppend(chunks[..n - 1], chunks[n - 1]);
    }
  }

  /** On disk a STREAM file takes 42 bytes and 20 for each chunk on top of the plaintext. */
  lemma DiskLength(a: Aead, h: Hash, key: Bytes, stream: Bytes, chunks: seq<Bytes>)
    requires LawfulAead(a) && LawfulHash(h) && |stream| == STREAM_NONCE_LEN
    ensures |StreamFile(a, h, key, stream, chunks)| == TotalLength(chunks) + 42 + 20 * |chunks|
  {
    var segs := SealedSegments(a, key, stream, chunks);
    FileLayout(a, h, key, stream, segs);
    TileLength(segs);
    SealedTotal(a, key, stream, chunks, |chunks|);
    assert segs[..|chunks|] == segs && chunks[..|chunks|] == chunks;
  }

  // The reader and the verifier.

  lemma {:induction false} ScansAgree(file: Bytes, pos: nat, end: nat, bound: nat)
    requires end <= bound <= |file|
    requires pos <= end && ScanFile(file, pos, end, end).1.AtEnd?
    ensures ScanFile(file, pos, end, bound) == ScanFile(file, pos, end, end)
    decreases end - pos
  {
    if pos < end {
      ScansAgree(file, pos + 4 + FromLe(file[pos..pos + 4]), end, bound);
    }
  }

  /**
    The verifier accepts every file the reader decrypts, and the reader decrypts a
    verified file exactly when its segments tile the space between header and trailer.
   */
  lemma ReaderIffVerifierOnTilings(a: Aead, h: Hash, key: Bytes, file: Bytes)
    ensures Decoded(a, h, key, file).Ok? <==>
      && Verified(a, h, key, file).Ok?
      && |file| >= MIN_STREAM_FILE_LEN
      && exists segs :: Framed(segs) && Tile(segs) == Region(file)
  {
    if |file| >= MIN_STREAM_FILE_LEN {
      var end := |file| - FILE_HASH_LEN;
      var region := Region(file);
      TilesScan(region);
      ScanFileIsScan(file, HEADER_LEN, end);
      if Scan(region).1.AtEnd? {
        ScansAgree(file, HEADER_LEN, end, |file|);
        assert Framed(Scan(region).0) && Tile(Scan(region).0) == region;
      }
      forall segs | Framed(segs) && Tile(segs) == region
        ensures Scan(region).1.AtEnd?
      {
        ParseIsUnique(region, segs);
      }
    }
  }

  /** Bare magic and its digest, 35 bytes: the verifier passes this file, the reader refuses it as too small. */
  lemma VerifierAcceptsHeaderlessFile(a: Aead, h: Hash, key: Bytes)
    requires LawfulHash(h)
    ensures var file := Trailed(h, STREAM_MAGIC);
      Verified(a, h, key, file) == Ok(()) && Decoded(a, h, key, file) == Err(FileTooSmall)
  {
    TrailedIsIntact(h, STREAM_MAGIC);
    var file := Trailed(h, STREAM_MAGIC);
    assert file[..MAGIC_LEN] == STREAM_MAGIC;
    assert ScanFile(file, HEADER_LEN, |file| - FILE_HASH_LEN, |file|) == ([], AtEnd);
  }

  // Authenticity, with an ideal AEAD.

  /** Of these byte strings, only what the key holder sealed opens, and only under the nonce it was sealed with. */
  ghost predicate Unforged(a: Aead, key: Bytes, sealed: set<(Bytes, Bytes)>, segs: seq<Bytes>) {
    forall i, nonce :: 0 <= i < |segs| && a.open(key, nonce, segs[i]).Some? ==> (nonce, segs[i]) in sealed
  }

  /** Everything ever sealed under this stream nonce is one upload of `chunks`. */
  ghost predicate OneUpload(a: Aead, key: Bytes, sealed: set<(Bytes, Bytes)>, stream: Bytes, chunks: seq<Bytes>) {
    forall e :: e in sealed && |e.0| == NONCE_LEN && e.0[..STREAM_NONCE_LEN] == stream ==>
      exists i :: 0 <= i < |chunks| && WrittenAs(a, key, stream, chunks, i, e)
  }

  ghost predicate WrittenAs(a: Aead, key: Bytes, stream: Bytes, chunks: seq<Bytes>, i: nat, e: (Bytes, Bytes))
    requires i < |chunks|
  {
    e == (SegmentNonce(stream, i, i + 1 == |chunks|), SealedSegments(a, key, stream, chunks)[i])
  }

  lemma SegmentNonceInjective(stream: Bytes, i: nat, last: bool, j: nat, last': bool)
    requires i < U32_LIMIT && j < U32_LIMIT
    requires SegmentNonce(stream, i, last) == SegmentNonce(stream, j, last')
    ensures i == j && last == last'
  {
    var n, n' := SegmentNonce(stream, i, last), SegmentNonce(stream, j, last');
    var k := |stream|;
    assert n[k..k + 4] == Be(i, 4) && n'[k..k + 4] == Be(j, 4);
    assert n[k + 4] == n'[k + 4];
    U32Limit();
    BeInjective(i, j, 4);
  }

  /** A segment that opens at a position is the one that was written there, with the same flag. */
  lemma OpenedWasWritten(a: Aead, key: Bytes, sealed: set<(Bytes, Bytes)>, stream: Bytes, chunks: seq<Bytes>,
                         segs: seq<Bytes>, i: nat, last: bool)
    requires |stream| == STREAM_NONCE_LEN && |chunks| <= U32_LIMIT && i < |segs| && i < U32_LIMIT
    requires Unforged(a, key, sealed, segs) && OneUpload(a, key, sealed, stream, chunks)
    requires a.open(key, SegmentNonce(stream, i, last), segs[i]).Some?
    ensures i < |chunks| && last == (i + 1 == |chunks|)
    ensures segs[i] == SealedSegments(a, key, stream, chunks)[i]
  {
    var nonce := SegmentNonce(stream, i, last);
    var e := (nonce, segs[i]);
    assert e in sealed;
    assert nonce[..STREAM_NONCE_LEN] == stream;
    var j :| 0 <= j < |chunks| && WrittenAs(a, key, stream, chunks, j, e);
    SegmentNonceInjective(stream, i, last, j, j + 1 == |chunks|);
  }

  /** A list of at least one segment that opens to its end is the written list. */
  lemma OpenedListIsWritten(a: Aead, key: Bytes, sealed: set<(Bytes, Bytes)>, stream: Bytes, chunks: seq<Bytes>,
                            segs: seq<Bytes>)
    requires |stream| == STREAM_NONCE_LEN && |chunks| <= U32_LIMIT && segs != []
    requires Unforged(a, key, sealed, segs) && OneUpload(a, key, sealed, stream, chunks)
    requires OpenScanned(a, key, stream, segs, AtEnd).Ok?
    ensures segs == SealedSegments(a, key, stream, chunks)
  {
    var last := |segs| - 1;
    if last > COUNTER_MAX {
      OpenRunOpens(a, key, stream, segs, last, COUNTER_MAX);
      assert false;
    }
    forall i | 0 <= i < last
      ensures i < |chunks| && segs[i] == SealedSegments(a, key, stream, chunks)[i]
    {
      OpenRunOpens(a, key, stream, segs, last, i);
      OpenedWasWritten(a, key, sealed, stream, chunks, segs, i, false);
    }
    OpenedWasWritten(a, key, sealed, stream, chunks, segs, last, true);
  }

  /**
    Any file the reader accepts under the nonce of an upload, with at least one segment,
    is byte for byte the file that was written; so what it decrypts to is what was uploaded.
   */
  lemma AcceptedIsWritten(a: Aead, h: Hash, key: Bytes, sealed: set<(Bytes, Bytes)>, chunks: seq<Bytes>, file: Bytes)
    requires LawfulAead(a) && LawfulHash(h) && |chunks| <= U32_LIMIT
    requires Decoded(a, h, key, file).Ok? && |file| > MIN_STREAM_FILE_LEN
    requires Unforged(a, key, sealed, Scan(Region(file)).0)
    requires OneUpload(a, key, sealed, StreamNonce(file), chunks)
    ensures file == StreamFile(a, h, key, StreamNonce(file), chunks)
    ensures Decoded(a, h, key, file) == Ok(Concat(chunks))
  {
    var stream, segs := StreamNonce(file), Scan(Region(file)).0;
    DecodedParts(a, h, key, file);
    OpenedListIsWritten(a, key, sealed, stream, chunks, segs);
    OpenAllOfSealed(a, key, stream, chunks);
  }

  lemma DecodedParts(a: Aead, h: Hash, key: Bytes, file: Bytes)
    requires Decoded(a, h, key, file).Ok? && |file| > MIN_STREAM_FILE_LEN
    ensures var segs := Scan(Region(file)).0;
      && segs != []
      && Decoded(a, h, key, file) == OpenScanned(a, key, StreamNonce(file), segs, AtEnd)
      && file == Trailed(h, StreamContent(StreamNonce(file), segs))
  {
    TilesScan(Region(file));
    IntactParts(h, file);
  }

  lemma IntactParts(h: Hash, file: Bytes)
    requires |file| >= MIN_STREAM_FILE_LEN && Verdict(h, file).Intact? && file[..MAGIC_LEN] == STREAM_MAGIC
    ensures file == Trailed(h, STREAM_MAGIC + StreamNonce(file) + Region(file))
  {
    var end := |file| - FILE_HASH_LEN;
    assert file[..HEADER_LEN] == STREAM_MAGIC + StreamNonce(file);
    assert Content(file) == file[..HEADER_LEN] + Region(file);
    assert file == Content(file) + file[end..];
  }

  /**
    Reordering, repeating or dropping written segments is detected even when the trailer is
    recomputed: of all non-empty lists of segments only the written one is accepted.
   */
  lemma RearrangedIsRejected(a: Aead, h: Hash, key: Bytes, sealed: set<(Bytes, Bytes)>, stream: Bytes,
                             chunks: seq<Bytes>, segs: seq<Bytes>)
    requires LawfulAead(a) && LawfulHash(h) && |stream| == STREAM_NONCE_LEN && |chunks| <= U32_LIMIT
    requires OneUpload(a, key, sealed, stream, chunks) && Unforged(a, key, sealed, segs)
    requires Framed(segs) && segs != [] && segs != SealedSegments(a, key, stream, chunks)
    ensures Decoded(a, h, key, Trailed(h, StreamContent(stream, segs))).Err?
  {
    FileLayout(a, h, key, stream, segs);
    ScanTiles(segs);
    if OpenScanned(a, key, stream, segs, AtEnd).Ok? {
      OpenedListIsWritten(a, key, sealed, stream, chunks, segs);
    }
  }

  /** Dropping every segment is not detected: such a file reads as the empty string. */
  lemma EmptiedFileIsAccepted(a: Aead, h: Hash, key: Bytes, stream: Bytes)
    requires LawfulHash(h) && |stream| == STREAM_NONCE_LEN
    ensures Decoded(a, h, key, Trailed(h, STREAM_MAGIC + stream)) == Ok([])
  {
    FileLayout(a, h, key, stream, []);
    assert StreamContent(stream, []) == STREAM_MAGIC + stream;
  }

  /**
    Exactly two segment lists are accepted under an upload's nonce, whoever computed the trailer: the one that was written,
    and the empty one.
   */
  lemma AcceptedIffWrittenOrEmpty(a: Aead, h: Hash, key: Bytes, sealed: set<(Bytes, Bytes)>, stream: Bytes,
                                  chunks: seq<Bytes>, segs: seq<Bytes>)
    requires LawfulAead(a) && LawfulHash(h) && |stream| == STREAM_NONCE_LEN && |chunks| <= U32_LIMIT
    requires OneUpload(a, key, sealed, stream, chunks) && Unforged(a, key, sealed, segs) && Framed(segs)
    ensures Decoded(a, h, key, Trailed(h, StreamContent(stream, segs))).Ok?
      <==> segs == [] || segs == SealedSegments(a, key, stream, chunks)
  {
    if segs == [] {
      EmptiedFileIsAccepted(a, h, key, stream);
      assert StreamContent(stream, []) == STREAM_MAGIC + stream;
    } else if segs == SealedSegments(a, key, stream, chunks) {
      FileLayout(a, h, key, stream, segs);
      ScanTiles(segs);
      OpenAllOfSealed(a, key, stream, chunks);
    } else {
      RearrangedIsRejected(a, h, key, sealed, stream, chunks, segs);
    }
  }

  lemma OverlongIsRejected(a: Aead, key: Bytes, sealed: set<(Bytes, Bytes)>, stream: Bytes, chunks: seq<Bytes>, i: nat)
    requires LawfulAead(a) && |stream| == STREAM_NONCE_LEN && i < |chunks| <= U32_LIMIT
    requires OneUpload(a, key, sealed, stream, chunks)
    requires |chunks[i]| + TAG_LEN >= U32_LIMIT
    ensures var (segs, end) := Scan(Tile(SealedSegments(a, key, stream, chunks)));
      Unforged(a, key, sealed, segs) ==> OpenScanned(a, key, stream, segs, end).Err?
  {
    var written := SealedSegments(a, key, stream, chunks);
    var (segs, end) := Scan(Tile(written));
    TilesScan(Tile(written));
    TileLength(written);
    if Unforged(a, key, sealed, segs) && OpenScanned(a, key, stream, segs, end).Ok? {
      OpenedListIsWritten(a, key, sealed, stream, chunks, segs);
      SealedLength(a, key, stream, chunks, i);
    }
  }

  /**
    The length prefix is a 32-bit cast. A written file can be read back exactly when no
    chunk, with its tag, is too long for it.
   */
  lemma ReadableIffChunksFit(a: Aead, h: Hash, key: Bytes, sealed: set<(Bytes, Bytes)>, stream: Bytes, chunks: seq<Bytes>)
    requires LawfulAead(a) && LawfulHash(h) && |stream| == STREAM_NONCE_LEN && |chunks| <= U32_LIMIT
    requires OneUpload(a, key, sealed, stream, chunks)
    requires Unforged(a, key, sealed, Scan(Tile(SealedSegments(a, key, stream, chunks))).0)
    ensures Decoded(a, h, key, StreamFile(a, h, key, stream, chunks)) == Ok(Concat(chunks)) <==> ChunksFit(chunks)
  {
    if ChunksFit(chunks) {
      RoundTrip(a, h, key, stream, chunks);
    } else {
      var i :| 0 <= i < |chunks| && |chunks[i]| + TAG_LEN >= U32_LIMIT;
      OverlongIsRejected(a, key, sealed, stream, chunks, i);
      FileLayout(a, h, key, stream, SealedSegments(a, key, stream, chunks));
    }
  }

  // The bytes themselves.

  /** A nonce is the stream nonce, the counter with its most significant byte first, and the last flag. */
  lemma NonceBytes(stream: Bytes, counter: nat, last: bool)
    requires |stream| == STREAM_NONCE_LEN && counter < U32_LIMIT
    ensures var n := SegmentNonce(stream, counter, last);
      && |n| == NONCE_LEN && n[..7] == stream
      && counter == n[7] as nat * 0x100_0000 + n[8] as nat * 0x1_0000 + n[9] as nat * 0x100 + n[10] as nat
      && n[11] == if last then 1 else 0
  {
    BigEndian(counter);
    var n := SegmentNonce(stream, counter, last);
    assert n[7..11] == Be(counter, 4);
    assert n[7] == n[7..11][0] && n[8] == n[7..11][1] && n[9] == n[7..11][2] && n[10] == n[7..11][3];
  }

  lemma BigEndian(n: nat)
    requires n < U32_LIMIT
    ensures var b := Be(n, 4);
      n == b[0] as nat * 0x100_0000 + b[1] as nat * 0x1_0000 + b[2] as nat * 0x100 + b[3] as nat
  {
    var (n1, n2, n3) := (n / 0x100, n / 0x100 / 0x100, n / 0x100 / 0x100 / 0x100);
    assert Be(n3, 1) == Be(n3 / 256, 0) + [(n3 % 256) as byte];
    assert Be(n2, 2) == Be(n3, 1) + [(n2 % 256) as byte];
    assert Be(n1, 3) == Be(n2, 2) + [(n1 % 256) as byte];
    assert Be(n, 4) == Be(n1, 3) + [(n % 256) as byte];
  }

  /** A length prefix has its least significant byte first. */
  lemma LengthBytes(seg: Bytes)
    requires |seg| < U32_LIMIT
    ensures var b := SegmentLength(seg);
      |seg| == b[0] as nat + b[1] as nat * 0x100 + b[2] as nat * 0x1_0000 + b[3] as nat * 0x100_0000
  {
    var n := |seg|;
    var (n1, n2, n3) := (n / 0x100, n / 0x100 / 0x100, n / 0x100 / 0x100 / 0x100);
    assert Le(n3, 1) == [(n3 % 256) as byte] + Le(n3 / 256, 0);
    assert Le(n2, 2) == [(n2 % 256) as byte] + Le(n3, 1);
    assert Le(n1, 3) == [(n1 % 256) as byte] + Le(n2, 2);
    assert Le(n, 4) == [(n % 256) as byte] + Le(n1, 3);
  }
}
