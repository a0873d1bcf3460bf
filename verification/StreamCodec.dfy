/** The loops that write, read and verify STREAM files, against the format they implement. */
module StreamCodec {
  import opened ByteStrings
  import opened Crypto
  import opened HashTrailer
  import opened StreamFormat

  datatype WriteError = MissingChunk(index: nat) | SealFailed(index: nat) | SizeMismatch | VerifyFailed

  ghost predicate AllRead(buffers: seq<Option<Bytes>>) {
    forall i :: 0 <= i < |buffers| ==> buffers[i].Some?
  }

  ghost function Pieces(buffers: seq<Option<Bytes>>): (chunks: seq<Bytes>)
    requires AllRead(buffers)
  {
    seq(|buffers|, i requires 0 <= i < |buffers| => buffers[i].value)
  }

  /** `segs` are the first `n` of the segments made from `buffers`. */
  ghost predicate SealedSoFar(a: Aead, key: Bytes, stream: Bytes, buffers: seq<Option<Bytes>>, segs: seq<Bytes>) {
    && |segs| <= |buffers|
    && forall j :: 0 <= j < |segs| ==>
      && buffers[j].Some?
      && segs[j] == a.seal(key, SegmentNonce(stream, j, j + 1 == |buffers|), buffers[j].value)
  }

  ghost function ReadLength(buffers: seq<Option<Bytes>>, n: nat): nat
    requires n <= |buffers|
  {
    if n == 0 then 0
    else ReadLength(buffers, n - 1) + (if buffers[n - 1].Some? then |buffers[n - 1].value| else 0)
  }

  lemma {:induction false} ReadLengthIsTotal(buffers: seq<Option<Bytes>>, n: nat)
    requires AllRead(buffers) && n <= |buffers|
    ensures ReadLength(buffers, n) == TotalLength(Pieces(buffers)[..n])
  {
    if n > 0 {
      ReadLengthIsTotal(buffers, n - 1);
      var p := Pieces(buffers);
      assert p[..n] == p[..n - 1] + [p[n - 1]];
      ConcatAppend(p[..n - 1], p[n - 1]);
    }
  }

  lemma HashFrame(h: Hash, out: Bytes, seg: Bytes)
    requires LawfulHash(h)
    ensures h.update(h.update(h.update(h.init, out), SegmentLength(seg)), seg)
         == h.update(h.init, out + SegmentLength(seg) + seg)
  {
    assert UpdatesJoin(h, h.init, out, SegmentLength(seg));
    assert UpdatesJoin(h, h.init, out + SegmentLength(seg), seg);
  }

  lemma AppendSegment(stream: Bytes, segs: seq<Bytes>, seg: Bytes)
    ensures StreamContent(stream, segs + [seg]) == StreamContent(stream, segs) + SegmentLength(seg) + seg
  {
    TileAppend(segs, seg);
    assert STREAM_MAGIC + stream + (Tile(segs) + SegmentLength(seg) + seg)
        == STREAM_MAGIC + stream + Tile(segs) + SegmentLength(seg) + seg;
  }

  /** Chunk `i` is the first that could not be read, and the counter got that far. */
  ghost predicate FirstMissing(buffers: seq<Option<Bytes>>, i: nat) {
    i < |buffers| && i <= COUNTER_MAX && buffers[i].None? && AllRead(buffers[..i])
  }

  /** There are more chunks than the counter can number, and it comes to chunk `i` without one missing. */
  ghost predicate CounterRunsOut(buffers: seq<Option<Bytes>>, i: nat) {
    i == COUNTER_MAX && |buffers| > COUNTER_MAX + 1 && AllRead(buffers[..COUNTER_MAX + 1])
  }

  /** Where the loop stops early, and why. */
  ghost predicate Stops(buffers: seq<Option<Bytes>>, e: WriteError) {
    match e
    case MissingChunk(i) => FirstMissing(buffers, i)
    case SealFailed(i) => CounterRunsOut(buffers, i)
    case _ => false
  }

  /** It can stop in one way only, and not if all can be read and numbered. */
  lemma StopsOnce(buffers: seq<Option<Bytes>>, e: WriteError, e': WriteError)
    requires Stops(buffers, e)
    ensures Stops(buffers, e') ==> e == e'
    ensures !(AllRead(buffers) && |buffers| <= COUNTER_MAX + 1)
  {
    forall i: nat, n: nat | i < n <= |buffers| && buffers[i].None? ensures !AllRead(buffers[..n]) {
      assert buffers[..n][i].None?;
    }
  }

  lemma NothingStops(buffers: seq<Option<Bytes>>)
    requires AllRead(buffers) && |buffers| <= COUNTER_MAX + 1
    ensures forall i: nat :: !FirstMissing(buffers, i) && !CounterRunsOut(buffers, i)
  {
  }

  lemma SealOneMore(a: Aead, key: Bytes, stream: Bytes, buffers: seq<Option<Bytes>>, segs: seq<Bytes>)
    requires |segs| < |buffers| && buffers[|segs|].Some? && SealedSoFar(a, key, stream, buffers, segs)
    ensures var i := |segs|;
      SealedSoFar(a, key, stream, buffers, segs + [a.seal(key, SegmentNonce(stream, i, i + 1 == |buffers|), buffers[i].value)])
  {
  }

  lemma AllSealed(a: Aead, key: Bytes, stream: Bytes, buffers: seq<Option<Bytes>>, segs: seq<Bytes>)
    requires |segs| == |buffers| && SealedSoFar(a, key, stream, buffers, segs)
    ensures AllRead(buffers) && segs == SealedSegments(a, key, stream, Pieces(buffers))
    ensures ReadLength(buffers, |buffers|) == TotalLength(Pieces(buffers))
  {
    ReadLengthIsTotal(buffers, |buffers|);
    assert Pieces(buffers)[..|buffers|] == Pieces(buffers);
  }

  /** The loop of the writer: header and segments, the running hash, and the bytes read. */
  method WriteSegments(a: Aead, h: Hash, key: Bytes, stream: Bytes, buffers: seq<Option<Bytes>>)
    returns (out: Bytes, hasher: Bytes, bytesRead: nat, r: Result<(), WriteError>)
    requires LawfulHash(h) && |stream| == STREAM_NONCE_LEN
    ensures r.Ok? <==> AllRead(buffers) && |buffers| <= COUNTER_MAX + 1
    ensures r.Ok? ==> out == StreamContent(stream, SealedSegments(a, key, stream, Pieces(buffers)))
    ensures r.Ok? ==> hasher == h.update(h.init, out) && bytesRead == TotalLength(Pieces(buffers))
    ensures r.Err? ==> r.error.MissingChunk? || r.error.SealFailed?
    ensures r.Err? ==> Stops(buffers, r.error)
  {
    hasher := h.init;
    out := STREAM_MAGIC;
    hasher := h.update(hasher, STREAM_MAGIC);
    assert UpdatesJoin(h, h.init, out, stream);
    out := out + stream;
    hasher := h.update(hasher, stream);
    ghost var segs: seq<Bytes> := [];
    assert out == StreamContent(stream, segs);
    bytesRead := 0;
    var i := 0;
    while i < |buffers|
      invariant 0 <= i == |segs| <= |buffers|
      invariant SealedSoFar(a, key, stream, buffers, segs)
      invariant out == StreamContent(stream, segs)
      invariant hasher == h.update(h.init, out)
      invariant bytesRead == ReadLength(buffers, i)
      invariant i == |buffers| ==> i <= COUNTER_MAX + 1
      invariant i < |buffers| ==> i <= COUNTER_MAX
    {
      if buffers[i].None? {
        return out, hasher, bytesRead, Err(MissingChunk(i));
      }
      var buf := buffers[i].value;
      bytesRead := bytesRead + |buf|;
      var isLast := i + 1 == |buffers|;
      if !isLast && i == COUNTER_MAX {
        return out, hasher, bytesRead, Err(SealFailed(i));
      }
      buf := a.seal(key, SegmentNonce(stream, i, isLast), buf);
      SealOneMore(a, key, stream, buffers, segs);
      HashFrame(h, out, buf);
      AppendSegment(stream, segs, buf);
      hasher := h.update(hasher, SegmentLength(buf));
      hasher := h.update(hasher, buf);
      out := out + SegmentLength(buf) + buf;
      segs := segs + [buf];
      i := i + 1;
    }
    AllSealed(a, key, stream, buffers, segs);
    r := Ok(());
  }

  /**
    Encrypts what reading each chunk file in turn returned (`None`: the file is gone).
    The optional write-verify pass re-buffers the finished file and can never fail.
   */
  method StreamEncryptChunksToFile(a: Aead, h: Hash, key: Bytes, stream: Bytes, buffers: seq<Option<Bytes>>,
                                   totalPlaintextBytes: nat, writeVerify: bool)
    returns (out: Bytes, r: Result<(), WriteError>)
    requires LawfulHash(h) && |stream| == STREAM_NONCE_LEN
    ensures r.Ok? <==> AllRead(buffers) && |buffers| <= COUNTER_MAX + 1 && TotalLength(Pieces(buffers)) == totalPlaintextBytes
    ensures r.Ok? ==> out == StreamFile(a, h, key, stream, Pieces(buffers))
    ensures forall i: nat :: r == Err(MissingChunk(i)) <==> FirstMissing(buffers, i)
    ensures forall i: nat :: r == Err(SealFailed(i)) <==> CounterRunsOut(buffers, i)
    ensures r == Err(SizeMismatch) <==>
      AllRead(buffers) && |buffers| <= COUNTER_MAX + 1 && TotalLength(Pieces(buffers)) != totalPlaintextBytes
    ensures r == Err(SizeMismatch) ==> out == StreamContent(stream, SealedSegments(a, key, stream, Pieces(buffers)))
    ensures r != Err(VerifyFailed)
  {
    var hasher, bytesRead;
    out, hasher, bytesRead, r := WriteSegments(a, h, key, stream, buffers);
    if r.Err? {
      forall e ensures Stops(buffers, e) <==> r == Err(e) {
        StopsOnce(buffers, r.error, e);
      }
      assert forall i: nat :: FirstMissing(buffers, i) <==> Stops(buffers, MissingChunk(i));
      assert forall i: nat :: CounterRunsOut(buffers, i) <==> Stops(buffers, SealFailed(i));
      return;
    }
    NothingStops(buffers);
    if bytesRead != totalPlaintextBytes {
      return out, Err(SizeMismatch);
    }
    TrailedIsIntact(h, out);
    out := out + h.final(hasher);
    if writeVerify {
      var check := VerifyFileHash(h, out);
      if !check.Intact? {
        assert false;
        return out, Err(VerifyFailed);
      }
    }
    return out, Ok(());
  }

  /**
    What a reader answers from a given point on: offset, number of segments opened so
    far, the segment held back, the plaintext collected. Both readers are this walk,
    with different bounds on how far a segment may reach.
   */
  ghost function Resumed(a: Aead, key: Bytes, stream: Bytes, file: Bytes, segmentsEnd: nat, bound: nat,
                         pos: nat, counter: nat, pending: Option<Bytes>, plaintext: Bytes): Result<Bytes, ReadError>
    requires bound <= |file|
    decreases bound - pos
  {
    if pos >= segmentsEnd then
      if pending.None? then Ok(plaintext)
      else
        match OpenLast(a, key, stream, counter, pending.value)
        case None => Err(DecryptFailed)
        case Some(p) => Ok(plaintext + p)
    else if pos + 4 > bound then Err(TruncatedHeader)
    else
      var n := FromLe(file[pos..pos + 4]);
      if pos + 4 + n > bound then Err(TruncatedBody)
      else
        var seg := file[pos + 4..pos + 4 + n];
        if pending.None? then
          Resumed(a, key, stream, file, segmentsEnd, bound, pos + 4 + n, counter, Some(seg), plaintext)
        else
          match OpenNext(a, key, stream, counter, pending.value)
          case None => Err(DecryptFailed)
          case Some(p) =>
            Resumed(a, key, stream, file, segmentsEnd, bound, pos + 4 + n, counter + 1, Some(seg), plaintext + p)
  }

  /** All that was parsed but the last segment is decrypted; the last one is held back. */
  ghost predicate HeldBack(a: Aead, key: Bytes, stream: Bytes, seen: seq<Bytes>,
                           counter: nat, pending: Option<Bytes>, plaintext: Bytes) {
    if seen == [] then counter == 0 && pending.None? && plaintext == []
    else
      && counter == |seen| - 1
      && pending == Some(seen[counter])
      && OpenRun(a, key, stream, seen, counter) == Some(plaintext)
  }

  lemma HoldNext(a: Aead, key: Bytes, stream: Bytes, seen: seq<Bytes>,
                 counter: nat, pending: Option<Bytes>, plaintext: Bytes, seg: Bytes)
    requires HeldBack(a, key, stream, seen, counter, pending, plaintext)
    ensures if seen == [] then HeldBack(a, key, stream, seen + [seg], counter, Some(seg), plaintext)
      else match OpenNext(a, key, stream, counter, pending.value)
        case None => OpenRun(a, key, stream, seen + [seg], |seen|).None?
        case Some(p) => HeldBack(a, key, stream, seen + [seg], counter + 1, Some(seg), plaintext + p)
  {
    if seen != [] {
      OpenRunPrefix(a, key, stream, seen, seen + [seg], counter);
    }
  }

  /** Where no further segment is found, the walk answers for what it has seen. */
  lemma ResumedAtEnd(a: Aead, key: Bytes, stream: Bytes, file: Bytes, segmentsEnd: nat, bound: nat,
                     pos: nat, counter: nat, pending: Option<Bytes>, plaintext: Bytes, seen: seq<Bytes>)
    requires bound <= |file| && HeldBack(a, key, stream, seen, counter, pending, plaintext)
    requires ScanFile(file, pos, segmentsEnd, bound).0 == []
    ensures Resumed(a, key, stream, file, segmentsEnd, bound, pos, counter, pending, plaintext)
      == OpenScanned(a, key, stream, seen, ScanFile(file, pos, segmentsEnd, bound).1)
  {
  }

  /** The first segment found lies within the bounds, and the rest is found behind it. */
  lemma FrameAt(file: Bytes, segmentsEnd: nat, bound: nat, pos: nat) returns (next: nat, seg: Bytes)
    requires bound <= |file| && ScanFile(file, pos, segmentsEnd, bound).0 != []
    ensures pos < segmentsEnd && pos + 4 <= next <= bound && next == pos + 4 + FromLe(file[pos..pos + 4])
    ensures seg == file[pos + 4..next]
    ensures var rest := ScanFile(file, next, segmentsEnd, bound);
      ScanFile(file, pos, segmentsEnd, bound) == ([seg] + rest.0, rest.1)
  {
    next := pos + 4 + FromLe(file[pos..pos + 4]);
    seg := file[pos + 4..next];
  }

  /** A segment that does not open stops the walk, and spoils the whole list. */
  lemma ResumedStuck(a: Aead, key: Bytes, stream: Bytes, counter: nat, pending: Option<Bytes>, plaintext: Bytes,
                     seen: seq<Bytes>, seg: Bytes, rest: seq<Bytes>, end: ScanEnd)
    requires HeldBack(a, key, stream, seen, counter, pending, plaintext)
    requires pending.Some? && OpenNext(a, key, stream, counter, pending.value).None?
    ensures OpenScanned(a, key, stream, seen + [seg] + rest, end) == Err(DecryptFailed)
  {
    HoldNext(a, key, stream, seen, counter, pending, plaintext, seg);
    FailsEarly(a, key, stream, seen + [seg], rest, end);
  }

  /** The walk parses first and decrypts what it found: holding one segment back changes nothing. */
  lemma {:induction false} ResumedIsOpenScanned(
      a: Aead, key: Bytes, stream: Bytes, file: Bytes, segmentsEnd: nat, bound: nat,
      pos: nat, counter: nat, pending: Option<Bytes>, plaintext: Bytes, seen: seq<Bytes>)
    requires bound <= |file|
    requires HeldBack(a, key, stream, seen, counter, pending, plaintext)
    ensures var (segs, end) := ScanFile(file, pos, segmentsEnd, bound);
      Resumed(a, key, stream, file, segmentsEnd, bound, pos, counter, pending, plaintext)
      == OpenScanned(a, key, stream, seen + segs, end)
    decreases bound - pos
  {
    var (segs, end) := ScanFile(file, pos, segmentsEnd, bound);
    if segs == [] {
      assert seen + segs == seen;
      ResumedAtEnd(a, key, stream, file, segmentsEnd, bound, pos, counter, pending, plaintext, seen);
    } else {
      var next, seg := FrameAt(file, segmentsEnd, bound, pos);
      var rest := ScanFile(file, next, segmentsEnd, bound).0;
      assert seen + segs == seen + [seg] + rest;
      HoldNext(a, key, stream, seen, counter, pending, plaintext, seg);
      if pending.None? {
        ResumedIsOpenScanned(a, key, stream, file, segmentsEnd, bound, next, counter, Some(seg), plaintext, seen + [seg]);
      } else {
        match OpenNext(a, key, stream, counter, pending.value)
        case None => ResumedStuck(a, key, stream, counter, pending, plaintext, seen, seg, rest, end);
        case Some(p) =>
          ResumedIsOpenScanned(a, key, stream, file, segmentsEnd, bound, next, counter + 1, Some(seg), plaintext + p, seen + [seg]);
      }
    }
  }

  lemma FailsEarly(a: Aead, key: Bytes, stream: Bytes, seen: seq<Bytes>, rest: seq<Bytes>, end: ScanEnd)
    requires seen != [] && OpenRun(a, key, stream, seen, |seen| - 1).None?
    ensures OpenScanned(a, key, stream, seen + rest, end) == Err(DecryptFailed)
  {
    var segs := seen + rest;
    OpenRunPrefix(a, key, stream, seen, segs, |seen| - 1);
    OpenRunStuck(a, key, stream, segs, |seen| - 1, |segs| - 1);
  }

  lemma DecodedIsResumed(a: Aead, h: Hash, key: Bytes, file: Bytes)
    requires |file| >= MIN_STREAM_FILE_LEN && Verdict(h, file).Intact? && file[..MAGIC_LEN] == STREAM_MAGIC
    ensures var end := |file| - FILE_HASH_LEN;
      Decoded(a, h, key, file) == Resumed(a, key, StreamNonce(file), file, end, end, HEADER_LEN, 0, None, [])
  {
    var end := |file| - FILE_HASH_LEN;
    ResumedIsOpenScanned(a, key, StreamNonce(file), file, end, end, HEADER_LEN, 0, None, [], []);
    ScanFileIsScan(file, HEADER_LEN, end);
    assert [] + Scan(Region(file)).0 == Scan(Region(file)).0;
  }

  lemma VerifiedIsResumed(a: Aead, h: Hash, key: Bytes, file: Bytes)
    requires Verdict(h, file).Intact? && file[..MAGIC_LEN] == STREAM_MAGIC
    ensures Verified(a, h, key, file)
         == match Resumed(a, key, StreamNonce(file), file, |file| - FILE_HASH_LEN, |file|, HEADER_LEN, 0, None, [])
            case Ok(_) => Ok(())
            case Err(e) => Err(e)
  {
    var end := |file| - FILE_HASH_LEN;
    ResumedIsOpenScanned(a, key, StreamNonce(file), file, end, |file|, HEADER_LEN, 0, None, [], []);
    var segs := ScanFile(file, HEADER_LEN, end, |file|).0;
    assert [] + segs == segs;
  }

  /** The in-memory reader. */
  method StreamDecryptFile(a: Aead, h: Hash, key: Bytes, raw: Bytes) returns (r: Result<Bytes, ReadError>)
    ensures r == Decoded(a, h, key, raw)
  {
    if |raw| < MIN_STREAM_FILE_LEN {
      return Err(FileTooSmall);
    }
    var check := VerifyFileHashBytes(h, raw);
    if !check.Intact? {
      return Err(HashMismatch);
    }
    if raw[..MAGIC_LEN] != STREAM_MAGIC {
      return Err(WrongMagic);
    }
    DecodedIsResumed(a, h, key, raw);
    var stream := raw[MAGIC_LEN..HEADER_LEN];
    var segmentsEnd := |raw| - FILE_HASH_LEN;
    var plaintext: Bytes := [];
    var pos, counter := HEADER_LEN, 0;
    var pending: Option<Bytes> := None;
    while pos < segmentsEnd
      invariant pos <= segmentsEnd
      invariant Decoded(a, h, key, raw)
             == Resumed(a, key, stream, raw, segmentsEnd, segmentsEnd, pos, counter, pending, plaintext)
    {
      if pos + 4 > segmentsEnd {
        return Err(TruncatedHeader);
      }
      var segLen := FromLe(raw[pos..pos + 4]);
      if pos + 4 + segLen > segmentsEnd {
        return Err(TruncatedBody);
      }
      var segData := raw[pos + 4..pos + 4 + segLen];
      pos := pos + 4 + segLen;
      if pending.Some? {
        var prev := OpenNext(a, key, stream, counter, pending.value);
        if prev.None? {
          return Err(DecryptFailed);
        }
        counter := counter + 1;
        plaintext := plaintext + prev.value;
      }
      pending := Some(segData);
    }
    if pending.Some? {
      var seg := OpenLast(a, key, stream, counter, pending.value);
      if seg.None? {
        return Err(DecryptFailed);
      }
      plaintext := plaintext + seg.value;
    }
    return Ok(plaintext);
  }

  /** The streaming verifier: reads segment after segment from the file and drops each plaintext. */
  method StreamVerifyDecryption(a: Aead, h: Hash, key: Bytes, file: Bytes) returns (r: Result<(), ReadError>)
    requires LawfulHash(h)
    ensures r == Verified(a, h, key, file)
  {
    var check := VerifyFileHash(h, file);
    if !check.Intact? {
      return Err(HashMismatch);
    }
    if file[..MAGIC_LEN] != STREAM_MAGIC {
      return Err(WrongMagic);
    }
    VerifiedIsResumed(a, h, key, file);
    var stream := file[MAGIC_LEN..HEADER_LEN];
    var segmentsEnd := |file| - FILE_HASH_LEN;
    var pos, counter := HEADER_LEN, 0;
    var pending: Option<Bytes> := None;
    ghost var plaintext: Bytes := [];
    while pos < segmentsEnd
      invariant pos <= |file|
      invariant Verified(a, h, key, file)
             == match Resumed(a, key, stream, file, segmentsEnd, |file|, pos, counter, pending, plaintext)
                case Ok(_) => Ok(())
                case Err(e) => Err(e)
    {
      if pos + 4 > |file| {
        return Err(TruncatedHeader);
      }
      var segLen := FromLe(file[pos..pos + 4]);
      if pos + 4 + segLen > |file| {
        return Err(TruncatedBody);
      }
      var segData := file[pos + 4..pos + 4 + segLen];
      pos := pos + 4 + segLen;
      if pending.Some? {
        var prev := OpenNext(a, key, stream, counter, pending.value);
        if prev.None? {
          return Err(DecryptFailed);
        }
        counter := counter + 1;
        plaintext := plaintext + prev.value;
      }
      pending := Some(segData);
    }
    if pending.Some? {
      var seg := OpenLast(a, key, stream, counter, pending.value);
      if seg.None? {
        return Err(DecryptFailed);
      }
    }
    return Ok(());
  }
}
