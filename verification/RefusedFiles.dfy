/** Which files are refused, and why: the errors of the readers and of the verifier, told from the bytes of the file. */
module RefusedFiles {
  import opened ByteStrings
  import opened Crypto
  import opened HashTrailer
  import opened StreamFormat
  import opened EncryptedFile

  // How a file falls into segments.

  /** Where the segments end that start at `pos`. */
  function Behind(pos: nat, segs: seq<Bytes>): nat {
    pos + |Tile(segs)|
  }

  /** What stops a parse at `at` that looks for segments up to `end` and may read up to `bound`. */
  predicate StopsFor(file: Bytes, at: nat, end: nat, bound: nat, why: ScanEnd) {
    match why
    case AtEnd => at >= end
    case CutInHeader => at < end && at + 4 > bound
    case CutInBody => at < end && at + 4 <= bound <= |file| && at + 4 + FromLe(file[at..at + 4]) > bound
  }

  /** The file holds these segments from `pos` on, each starting before `end`, and behind them the parse has to stop. */
  ghost predicate Parses(file: Bytes, pos: nat, end: nat, bound: nat, segs: seq<Bytes>, why: ScanEnd) {
    && Framed(segs)
    && (segs != [] ==> Behind(pos, segs) <= bound <= |file| && file[pos..Behind(pos, segs)] == Tile(segs))
    && (segs != [] ==> Behind(pos, segs[..|segs| - 1]) < end)
    && StopsFor(file, Behind(pos, segs), end, bound, why)
  }

  lemma LengthIs(length: Bytes, seg: Bytes)
    requires |seg| < U32_LIMIT && length == SegmentLength(seg)
    ensures FromLe(length) == |seg|
  {
    U32Limit();
    LeDecodes(|seg|, 4);
  }

  lemma IsLength(length: Bytes, seg: Bytes)
    requires |length| == 4 && FromLe(length) == |seg|
    ensures |seg| < U32_LIMIT && length == SegmentLength(seg)
  {
    U32Limit();
    LeEncodes(length);
  }

  /** A segment list that a file holds starts with the first segment. */
  lemma FirstIsThere(file: Bytes, pos: nat, end: nat, bound: nat, segs: seq<Bytes>, why: ScanEnd)
    requires segs != [] && Parses(file, pos, end, bound, segs, why)
    ensures pos < end && pos + 4 + |segs[0]| <= bound && FromLe(file[pos..pos + 4]) == |segs[0]|
    ensures file[pos + 4..pos + 4 + |segs[0]|] == segs[0]
    ensures Parses(file, pos + 4 + |segs[0]|, end, bound, segs[1..], why)
  {
    var (seg, rest) := (segs[0], segs[1..]);
    assert Tile(segs) == SegmentLength(seg) + seg + Tile(rest);
    FrontOfRest(pos, segs);
    FirstFits(file, pos, seg, Tile(rest));
    LengthIs(file[pos..pos + 4], seg);
  }

  lemma FirstIsAdded(file: Bytes, pos: nat, end: nat, bound: nat, segs: seq<Bytes>, why: ScanEnd)
    requires segs != [] && pos < end && pos + 4 + |segs[0]| <= bound <= |file| && FromLe(file[pos..pos + 4]) == |segs[0]|
    requires file[pos + 4..pos + 4 + |segs[0]|] == segs[0]
    requires Parses(file, pos + 4 + |segs[0]|, end, bound, segs[1..], why)
    ensures Parses(file, pos, end, bound, segs, why)
  {
    var (seg, rest) := (segs[0], segs[1..]);
    assert segs == [seg] + rest;
    assert Tile(segs) == SegmentLength(seg) + seg + Tile(rest);
    FrontOfRest(pos, segs);
    IsLength(file[pos..pos + 4], seg);
    FirstJoins(file, pos, seg, Tile(rest));
  }

  lemma FirstIsPutBefore(file: Bytes, pos: nat, end: nat, bound: nat, seg: Bytes, rest: seq<Bytes>, why: ScanEnd)
    requires pos < end && pos + 4 + |seg| <= bound <= |file| && FromLe(file[pos..pos + 4]) == |seg|
    requires file[pos + 4..pos + 4 + |seg|] == seg && Parses(file, pos + 4 + |seg|, end, bound, rest, why)
    ensures Parses(file, pos, end, bound, [seg] + rest, why)
  {
    assert ([seg] + rest)[1..] == rest;
    FirstIsAdded(file, pos, end, bound, [seg] + rest, why);
  }

  lemma FrontOfRest(pos: nat, segs: seq<Bytes>)
    requires segs != []
    ensures Behind(pos, segs) == Behind(pos + 4 + |segs[0]|, segs[1..])
    ensures |segs| > 1 ==> Behind(pos, segs[..|segs| - 1]) == Behind(pos + 4 + |segs[0]|, segs[1..][..|segs| - 2])
    ensures |segs| == 1 ==> Behind(pos, segs[..|segs| - 1]) == pos
  {
    if |segs| > 1 {
      assert segs[..|segs| - 1][1..] == segs[1..][..|segs| - 2];
    }
  }

  lemma FirstFits(file: Bytes, pos: nat, seg: Bytes, rest: Bytes)
    requires var all := SegmentLength(seg) + seg + rest; pos + |all| <= |file| && file[pos..pos + |all|] == all
    ensures file[pos..pos + 4] == SegmentLength(seg) && file[pos + 4..pos + 4 + |seg|] == seg
    ensures file[pos + 4 + |seg|..pos + 4 + |seg| + |rest|] == rest
  {
    var all := SegmentLength(seg) + seg + rest;
    assert all[..4] == SegmentLength(seg) && all[4..4 + |seg|] == seg && all[4 + |seg|..] == rest;
    SliceOfSlice(file, pos, pos + |all|, 0, 4);
    SliceOfSlice(file, pos, pos + |all|, 4, 4 + |seg|);
    SliceOfSlice(file, pos, pos + |all|, 4 + |seg|, |all|);
  }

  lemma FirstJoins(file: Bytes, pos: nat, seg: Bytes, rest: Bytes)
    requires pos + 4 + |seg| + |rest| <= |file|
    requires file[pos..pos + 4] == SegmentLength(seg) && file[pos + 4..pos + 4 + |seg|] == seg
    requires file[pos + 4 + |seg|..pos + 4 + |seg| + |rest|] == rest
    ensures var all := SegmentLength(seg) + seg + rest; file[pos..pos + |all|] == all
  {
  }

  /** The parse finds exactly the segments, and exactly the reason to stop, that the bytes of the file have. */
  lemma ParsedExactly(file: Bytes, pos: nat, end: nat, bound: nat, segs: seq<Bytes>, why: ScanEnd)
    requires bound <= |file|
    ensures ScanFile(file, pos, end, bound) == (segs, why) <==> Parses(file, pos, end, bound, segs, why)
  {
    if ScanFile(file, pos, end, bound) == (segs, why) {
      ParsedIsThere(file, pos, end, bound);
    }
    if Parses(file, pos, end, bound, segs, why) {
      ThereIsParsed(file, pos, end, bound, segs, why);
    }
  }

  lemma {:induction false} ParsedIsThere(file: Bytes, pos: nat, end: nat, bound: nat)
    requires bound <= |file|
    ensures var (segs, why) := ScanFile(file, pos, end, bound); Parses(file, pos, end, bound, segs, why)
    decreases bound - pos
  {
    if pos < end && pos + 4 <= bound {
      var n := FromLe(file[pos..pos + 4]);
      if pos + 4 + n <= bound {
        ParsedIsThere(file, pos + 4 + n, end, bound);
        var (rest, why) := ScanFile(file, pos + 4 + n, end, bound);
        FirstIsPutBefore(file, pos, end, bound, file[pos + 4..pos + 4 + n], rest, why);
      }
    }
  }

  lemma {:induction false} ThereIsParsed(file: Bytes, pos: nat, end: nat, bound: nat, segs: seq<Bytes>, why: ScanEnd)
    requires bound <= |file| && Parses(file, pos, end, bound, segs, why)
    ensures ScanFile(file, pos, end, bound) == (segs, why)
    decreases |segs|
  {
    if segs == [] {
      NothingIsParsed(file, pos, end, bound, why);
    } else {
      FirstIsThere(file, pos, end, bound, segs, why);
      ThereIsParsed(file, pos + 4 + |segs[0]|, end, bound, segs[1..], why);
      FirstIsParsed(file, pos, end, bound, segs[0]);
      assert segs == [segs[0]] + segs[1..];
    }
  }

  lemma NothingIsParsed(file: Bytes, pos: nat, end: nat, bound: nat, why: ScanEnd)
    requires bound <= |file| && StopsFor(file, pos, end, bound, why)
    ensures ScanFile(file, pos, end, bound) == ([], why)
  {
  }

  lemma FirstIsParsed(file: Bytes, pos: nat, end: nat, bound: nat, seg: Bytes)
    requires pos < end && pos + 4 + |seg| <= bound <= |file|
    requires FromLe(file[pos..pos + 4]) == |seg| && file[pos + 4..pos + 4 + |seg|] == seg
    ensures var rest := ScanFile(file, pos + 4 + |seg|, end, bound); ScanFile(file, pos, end, bound) == ([seg] + rest.0, rest.1)
  {
  }

  // Why segments do not open.

  /** The segment opens at its place among those that others follow; counters go up to the last but one. */
  predicate OpensAt(a: Aead, key: Bytes, stream: Bytes, segs: seq<Bytes>, i: nat)
    requires i < |segs|
  {
    i < 0xFFFF_FFFF && a.open(key, SegmentNonce(stream, i, false), segs[i]).Some?
  }

  ghost predicate EarlierOpen(a: Aead, key: Bytes, stream: Bytes, segs: seq<Bytes>) {
    forall i :: 0 <= i < |segs| - 1 ==> OpensAt(a, key, stream, segs, i)
  }

  predicate LastOpens(a: Aead, key: Bytes, stream: Bytes, segs: seq<Bytes>) {
    segs != [] ==> a.open(key, SegmentNonce(stream, |segs| - 1, true), segs[|segs| - 1]).Some?
  }

  lemma {:induction false} RunOpensIff(a: Aead, key: Bytes, stream: Bytes, segs: seq<Bytes>, n: nat)
    requires n <= |segs|
    ensures OpenRun(a, key, stream, segs, n).Some? <==> forall i :: 0 <= i < n ==> OpensAt(a, key, stream, segs, i)
  {
    if n > 0 {
      RunOpensIff(a, key, stream, segs, n - 1);
      if n - 1 > COUNTER_MAX {
        assert !OpensAt(a, key, stream, segs, COUNTER_MAX);
        assert OpenRun(a, key, stream, segs, n - 1).None?;
      }
      assert OpenRun(a, key, stream, segs, n).Some? <==>
        OpenRun(a, key, stream, segs, n - 1).Some? && OpensAt(a, key, stream, segs, n - 1);
    }
  }

  lemma OutcomeOfSegments(a: Aead, key: Bytes, stream: Bytes, segs: seq<Bytes>, why: ScanEnd)
    ensures var (r, early, last) := (OpenScanned(a, key, stream, segs, why), EarlierOpen(a, key, stream, segs), LastOpens(a, key, stream, segs));
      && (r.Ok? <==> early && why.AtEnd? && last)
      && (r == Err(TruncatedHeader) <==> early && why.CutInHeader?)
      && (r == Err(TruncatedBody) <==> early && why.CutInBody?)
      && (r == Err(DecryptFailed) <==> !early || (why.AtEnd? && !last))
  {
    if segs != [] {
      RunOpensIff(a, key, stream, segs, |segs| - 1);
    }
  }

  // The errors of whole files.

  /** The segments between the header and the trailer, when a segment may run on up to `bound`. */
  ghost predicate FallsInto(file: Bytes, bound: nat, segs: seq<Bytes>, why: ScanEnd) {
    |file| >= 35 && Parses(file, 10, |file| - 32, bound, segs, why)
  }

  /** The whole file is read, but for what the reading came to. */
  ghost predicate Readable(h: Hash, file: Bytes) {
    IsTrailed(h, file) && file[..3] == [0x49, 0x44, 0x02]
  }

  ghost predicate Fails(a: Aead, key: Bytes, file: Bytes, segs: seq<Bytes>, why: ScanEnd, error: ReadError) {
    |file| >= 10 &&
    var stream := file[3..10];
    match error
    case TruncatedHeader => why.CutInHeader? && EarlierOpen(a, key, stream, segs)
    case TruncatedBody => why.CutInBody? && EarlierOpen(a, key, stream, segs)
    case DecryptFailed => !EarlierOpen(a, key, stream, segs) || (why.AtEnd? && !LastOpens(a, key, stream, segs))
    case _ => false
  }

  /**
    Why the reader refuses a file: too small, not ended by its own digest, another magic; and of what is left, a segment cut
    in its length, one cut in its body, or one that does not open, whichever comes first.
   */
  lemma ReaderErrors(a: Aead, h: Hash, key: Bytes, file: Bytes, error: ReadError)
    requires LawfulHash(h)
    ensures Decoded(a, h, key, file) == Err(error) <==>
      match error
      case FileTooSmall => |file| < 42
      case HashMismatch => |file| >= 42 && !IsTrailed(h, file)
      case WrongMagic => |file| >= 42 && IsTrailed(h, file) && file[..3] != [0x49, 0x44, 0x02]
      case _ =>
        |file| >= 42 && Readable(h, file)
        && exists segs, why :: FallsInto(file, |file| - 32, segs, why) && Fails(a, key, file, segs, why, error)
  {
    IntactIffTrailed(h, file);
    if |file| >= 42 && Readable(h, file) {
      var (segs, why) := Scan(Region(file));
      ScanFileIsScan(file, 10, |file| - 32);
      OnlyParse(a, key, file, |file| - 32, segs, why, error);
    }
  }

  /** Why the streaming verifier refuses one; a segment may take in bytes of the trailer. */
  lemma VerifierErrors(a: Aead, h: Hash, key: Bytes, file: Bytes, error: ReadError)
    requires LawfulHash(h)
    ensures Verified(a, h, key, file) == Err(error) <==>
      match error
      case FileTooSmall => false
      case HashMismatch => !IsTrailed(h, file)
      case WrongMagic => IsTrailed(h, file) && file[..3] != [0x49, 0x44, 0x02]
      case _ =>
        Readable(h, file)
        && exists segs, why :: FallsInto(file, |file|, segs, why) && Fails(a, key, file, segs, why, error)
  {
    IntactIffTrailed(h, file);
    if Readable(h, file) {
      var (segs, why) := ScanFile(file, 10, |file| - 32, |file|);
      OnlyParse(a, key, file, |file|, segs, why, error);
    }
  }

  lemma OnlyParse(a: Aead, key: Bytes, file: Bytes, bound: nat, segs: seq<Bytes>, why: ScanEnd, error: ReadError)
    requires |file| >= 35 && bound <= |file| && ScanFile(file, 10, |file| - 32, bound) == (segs, why)
    ensures OpenScanned(a, key, StreamNonce(file), segs, why) == Err(error) <==>
      exists segs', why' :: FallsInto(file, bound, segs', why') && Fails(a, key, file, segs', why', error)
  {
    OutcomeOfSegments(a, key, StreamNonce(file), segs, why);
    forall segs', why' ensures FallsInto(file, bound, segs', why') <==> (segs', why') == (segs, why) {
      ParsedExactly(file, 10, |file| - 32, bound, segs', why');
    }
  }

  /** Why the single-shot reader refuses a file, and what it makes of one that it does not. */
  lemma SingleErrors(a: Aead, h: Hash, key: Bytes, blob: Bytes)
    requires LawfulHash(h)
    ensures var r := SingleDecoded(a, h, key, blob);
      && (r.TooShort? <==> |blob| < 63)
      && (r.BadMagic? <==> |blob| >= 63 && blob[..3] != [0x49, 0x44, 0x01])
      && (r.FileHashMismatch? <==> |blob| >= 63 && blob[..3] == [0x49, 0x44, 0x01] && !IsTrailed(h, blob))
      && (|blob| >= 63 && blob[..3] == [0x49, 0x44, 0x01] && IsTrailed(h, blob) ==>
           match a.open(key, blob[3..15], blob[15..|blob| - 32])
           case None => r == OpenFailed
           case Some(p) => r == Opened(p))
  {
    IntactIffTrailed(h, blob);
    if |blob| >= 63 {
      assert Content(blob)[3..15] == blob[3..15] && Content(blob)[15..] == blob[15..|blob| - 32];
    }
  }
}
