/**
  The STREAM container: what a file holds, how its bytes parse, and what reading it
  yields. STREAM-BE32 over AES-256-GCM: the nonce of a segment is the 7-byte stream
  nonce, a 32-bit big-endian counter and a last-segment flag.
 */
module StreamFormat {
  import opened ByteStrings
  import opened Crypto
  import opened HashTrailer

  const STREAM_MAGIC: Bytes := [0x49, 0x44, 0x02]
  const STREAM_NONCE_LEN := 7
  const HEADER_LEN := 10
  const MIN_STREAM_FILE_LEN := 42
  const COUNTER_MAX := 0xFFFF_FFFF

  function SegmentNonce(stream: Bytes, counter: nat, last: bool): Bytes {
    stream + Be(counter, 4) + [if last then 1 else 0]
  }

  /** The segments the encryptor makes of `chunks`: the last one, and only it, is sealed as last. */
  function SealedSegments(a: Aead, key: Bytes, stream: Bytes, chunks: seq<Bytes>): (segs: seq<Bytes>) {
    seq(|chunks|, i requires 0 <= i < |chunks| =>
      a.seal(key, SegmentNonce(stream, i, i + 1 == |chunks|), chunks[i]))
  }

  /** The four-byte length in front of a segment; the cast to u32 drops the high bits. */
  function SegmentLength(seg: Bytes): (b: Bytes)
    ensures |b| == 4
  {
    Le(AsU32(|seg|), 4)
  }

  /** Segments laid end to end, each behind its length. */
  function Tile(segs: seq<Bytes>): Bytes {
    if segs == [] then [] else SegmentLength(segs[0]) + segs[0] + Tile(segs[1..])
  }

  function StreamContent(stream: Bytes, segs: seq<Bytes>): Bytes {
    STREAM_MAGIC + stream + Tile(segs)
  }

  /** The finished file of an upload whose pieces are `chunks`. */
  function StreamFile(a: Aead, h: Hash, key: Bytes, stream: Bytes, chunks: seq<Bytes>): Bytes {
    Trailed(h, StreamContent(stream, SealedSegments(a, key, stream, chunks)))
  }

  datatype ScanEnd = AtEnd | CutInHeader | CutInBody

  /** Greedy parse of a region into length-prefixed segments, and how it stopped. */
  function Scan(region: Bytes): (s: (seq<Bytes>, ScanEnd))
    decreases |region|
  {
    if region == [] then ([], AtEnd)
    else if |region| < 4 then ([], CutInHeader)
    else
      var n := FromLe(region[..4]);
      if 4 + n > |region| then ([], CutInBody)
      else
        var rest := Scan(region[4 + n..]);
        ([region[4..4 + n]] + rest.0, rest.1)
  }

  ghost predicate Framed(segs: seq<Bytes>) {
    forall i :: 0 <= i < |segs| ==> |segs[i]| < U32_LIMIT
  }

  lemma {:induction false} TileAppend(segs: seq<Bytes>, last: Bytes)
    ensures Tile(segs + [last]) == Tile(segs) + SegmentLength(last) + last
  {
    if segs == [] {
      assert segs + [last] == [last];
      assert Tile([last]) == SegmentLength(last) + last + Tile([]);
    } else {
      TileAppend(segs[1..], last);
      assert (segs + [last])[1..] == segs[1..] + [last];
    }
  }

  lemma ScanFrame(seg: Bytes, rest: Bytes)
    requires |seg| < U32_LIMIT
    ensures Scan(SegmentLength(seg) + seg + rest) == ([seg] + Scan(rest).0, Scan(rest).1)
  {
    var region := SegmentLength(seg) + seg + rest;
    U32Limit();
    LeDecodes(|seg|, 4);
    assert region[..4] == SegmentLength(seg);
    assert region[4..4 + |seg|] == seg;
    assert region[4 + |seg|..] == rest;
  }

  /** Whatever was tiled is what the parse finds. */
  lemma {:induction false} ScanTiles(segs: seq<Bytes>)
    requires Framed(segs)
    ensures Scan(Tile(segs)) == (segs, AtEnd)
  {
    if segs != [] {
      ScanFrame(segs[0], Tile(segs[1..]));
      ScanTiles(segs[1..]);
      assert [segs[0]] + segs[1..] == segs;
    }
  }

  lemma FirstFrame(region: Bytes, n: nat)
    requires |region| >= 4 && n == FromLe(region[..4]) && 4 + n <= |region|
    ensures n < U32_LIMIT && region == SegmentLength(region[4..4 + n]) + region[4..4 + n] + region[4 + n..]
  {
    U32Limit();
    LeEncodes(region[..4]);
    assert region == region[..4] + region[4..4 + n] + region[4 + n..];
  }

  lemma TileFirst(seg: Bytes, rest: seq<Bytes>)
    ensures Tile([seg] + rest) == SegmentLength(seg) + seg + Tile(rest)
  {
  }

  /** The parse reaches the end only of a region that is exactly a tiling, and of the segments it returns. */
  lemma {:induction false} TilesScan(region: Bytes)
    ensures var s := Scan(region); Framed(s.0) && Tile(s.0) <= region && (s.1.AtEnd? ==> Tile(s.0) == region)
    decreases |region|
  {
    if region != [] && |region| >= 4 {
      var n := FromLe(region[..4]);
      if 4 + n <= |region| {
        TilesScan(region[4 + n..]);
        FirstFrame(region, n);
        TileFirst(region[4..4 + n], Scan(region[4 + n..]).0);
      }
    }
  }

  /** A region is a tiling of at most one segment list, and it is accepted exactly when it is one. */
  lemma ParseIsUnique(region: Bytes, segs: seq<Bytes>)
    requires Framed(segs)
    ensures Tile(segs) == region <==> Scan(region) == (segs, AtEnd)
  {
    ScanTiles(segs);
    TilesScan(region);
  }

  // Decryption of a segment list, with the decryptor's counter and last flag.

  function OpenNext(a: Aead, key: Bytes, stream: Bytes, counter: nat, seg: Bytes): Option<Bytes> {
    if counter == COUNTER_MAX then None else a.open(key, SegmentNonce(stream, counter, false), seg)
  }

  function OpenLast(a: Aead, key: Bytes, stream: Bytes, counter: nat, seg: Bytes): Option<Bytes> {
    a.open(key, SegmentNonce(stream, counter, true), seg)
  }

  /** The plaintext of the first `n` segments, none of them taken as last. */
  function OpenRun(a: Aead, key: Bytes, stream: Bytes, segs: seq<Bytes>, n: nat): Option<Bytes>
    requires n <= |segs|
  {
    if n == 0 then Some([])
    else
      match OpenRun(a, key, stream, segs, n - 1)
      case None => None
      case Some(plain) =>
        match OpenNext(a, key, stream, n - 1, segs[n - 1])
        case None => None
        case Some(p) => Some(plain + p)
  }

  datatype ReadError = FileTooSmall | HashMismatch | WrongMagic | TruncatedHeader | TruncatedBody | DecryptFailed

  /** One segment of lookahead: all but the last opened as inner segments before the region's end is known. */
  function OpenScanned(a: Aead, key: Bytes, stream: Bytes, segs: seq<Bytes>, end: ScanEnd): Result<Bytes, ReadError> {
    if segs != [] && OpenRun(a, key, stream, segs, |segs| - 1).None? then Err(DecryptFailed)
    else if end.CutInHeader? then Err(TruncatedHeader)
    else if end.CutInBody? then Err(TruncatedBody)
    else if segs == [] then Ok([])
    else
      match OpenLast(a, key, stream, |segs| - 1, segs[|segs| - 1])
      case None => Err(DecryptFailed)
      case Some(p) => Ok(OpenRun(a, key, stream, segs, |segs| - 1).value + p)
  }

  function StreamNonce(file: Bytes): Bytes
    requires |file| >= HEADER_LEN
  {
    file[MAGIC_LEN..HEADER_LEN]
  }

  /** What lies between header and trailer. */
  function Region(file: Bytes): Bytes
    requires |file| >= MIN_STREAM_FILE_LEN
  {
    file[HEADER_LEN..|file| - FILE_HASH_LEN]
  }

  /** What the in-memory reader answers for a file. */
  function Decoded(a: Aead, h: Hash, key: Bytes, file: Bytes): Result<Bytes, ReadError> {
    if |file| < MIN_STREAM_FILE_LEN then Err(FileTooSmall)
    else if !Verdict(h, file).Intact? then Err(HashMismatch)
    else if file[..MAGIC_LEN] != STREAM_MAGIC then Err(WrongMagic)
    else
      var (segs, end) := Scan(Region(file));
      OpenScanned(a, key, StreamNonce(file), segs, end)
  }

  /**
    The same parse on a file, from offset `pos` while before `segmentsEnd`, where no
    length may point past `bound`. The reader's bound is `segmentsEnd`; the verifier
    checks nothing and fails only at the end of the file.
   */
  function ScanFile(file: Bytes, pos: nat, segmentsEnd: nat, bound: nat): (s: (seq<Bytes>, ScanEnd))
    requires bound <= |file|
    decreases bound - pos
  {
    if pos >= segmentsEnd then ([], AtEnd)
    else if pos + 4 > bound then ([], CutInHeader)
    else
      var n := FromLe(file[pos..pos + 4]);
      if pos + 4 + n > bound then ([], CutInBody)
      else
        var rest := ScanFile(file, pos + 4 + n, segmentsEnd, bound);
        ([file[pos + 4..pos + 4 + n]] + rest.0, rest.1)
  }

  lemma {:induction false} ScanFileIsScan(file: Bytes, pos: nat, end: nat)
    requires pos <= end <= |file|
    ensures ScanFile(file, pos, end, end) == Scan(file[pos..end])
    decreases end - pos
  {
    if pos + 4 <= end {
      var region, n := file[pos..end], FromLe(file[pos..pos + 4]);
      SliceOfSlice(file, pos, end, 0, 4);
      if pos + 4 + n <= end {
        ScanFileIsScan(file, pos + 4 + n, end);
        SliceOfSlice(file, pos, end, 4, 4 + n);
        SliceOfSlice(file, pos, end, 4 + n, end - pos);
      }
    }
  }

  /** What the streaming verifier answers: the plaintext itself is dropped. */
  function Verified(a: Aead, h: Hash, key: Bytes, file: Bytes): Result<(), ReadError> {
    if !Verdict(h, file).Intact? then Err(HashMismatch)
    else if file[..MAGIC_LEN] != STREAM_MAGIC then Err(WrongMagic)
    else
      var (segs, end) := ScanFile(file, HEADER_LEN, |file| - FILE_HASH_LEN, |file|);
      match OpenScanned(a, key, StreamNonce(file), segs, end)
      case Ok(_) => Ok(())
      case Err(e) => Err(e)
  }

  lemma {:induction false} OpenRunPrefix(a: Aead, key: Bytes, stream: Bytes, segs: seq<Bytes>, longer: seq<Bytes>, n: nat)
    requires n <= |segs| && segs <= longer
    ensures OpenRun(a, key, stream, segs, n) == OpenRun(a, key, stream, longer, n)
  {
    if n > 0 {
      OpenRunPrefix(a, key, stream, segs, longer, n - 1);
    }
  }

  lemma {:induction false} OpenRunStuck(a: Aead, key: Bytes, stream: Bytes, segs: seq<Bytes>, n: nat, m: nat)
    requires n <= m <= |segs| && OpenRun(a, key, stream, segs, n).None?
    ensures OpenRun(a, key, stream, segs, m).None?
  {
    if n < m {
      OpenRunStuck(a, key, stream, segs, n, m - 1);
    }
  }

  lemma {:induction false} OpenRunOpens(a: Aead, key: Bytes, stream: Bytes, segs: seq<Bytes>, n: nat, i: nat)
    requires i < n <= |segs| && OpenRun(a, key, stream, segs, n).Some?
    ensures OpenNext(a, key, stream, i, segs[i]).Some?
  {
    if i < n - 1 {
      OpenRunOpens(a, key, stream, segs, n - 1, i);
    }
  }
}
