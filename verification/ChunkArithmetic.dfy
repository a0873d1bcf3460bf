/** How many chunks a transfer has, how long each is, what it is called in staging, and what serving returns. */
module ChunkArithmetic {
  import opened ByteStrings
  import opened Decimal

  const U64_LIMIT := 0x1_0000_0000_0000_0000

  function DivCeil(n: nat, d: nat): nat
    requires d > 0
  {
    (n + d - 1) / d
  }

  function SaturatingSub(x: nat, y: nat): nat {
    if x < y then 0 else x - y
  }

  function SaturatingMul(x: nat, y: nat): nat {
    if x * y < U64_LIMIT then x * y else U64_LIMIT - 1
  }

  /** The quotient is cast to u32, which drops its high bits. */
  function ExpectedTotalChunks(totalBytes: nat, chunkSize: nat): nat
    requires chunkSize > 0
  {
    if totalBytes == 0 then 1 else AsU32(DivCeil(totalBytes, chunkSize))
  }

  function ExpectedChunkLen(totalBytes: nat, chunkSize: nat, totalChunks: nat, index: nat): nat {
    if index + 1 < totalChunks then chunkSize
    else SaturatingSub(totalBytes, SaturatingMul(chunkSize, SaturatingSub(totalChunks, 1)))
  }

  /** What `init_upload` lets through: more than one chunk's worth, and the chunk count it computes itself. */
  predicate Accepted(totalBytes: nat, chunkSize: nat, totalChunks: nat) {
    && totalChunks > 0
    && 0 < chunkSize < totalBytes < U64_LIMIT
    && totalChunks == ExpectedTotalChunks(totalBytes, chunkSize)
  }

  function ExpectedLens(totalBytes: nat, chunkSize: nat, totalChunks: nat, n: nat): (sum: nat)
  {
    if n == 0 then 0
    else ExpectedLens(totalBytes, chunkSize, totalChunks, n - 1) + ExpectedChunkLen(totalBytes, chunkSize, totalChunks, n - 1)
  }

  lemma DivCeilBounds(n: nat, d: nat)
    requires d > 0
    ensures d * DivCeil(n, d) >= n
    ensures n > 0 ==> DivCeil(n, d) > 0 && d * (DivCeil(n, d) - 1) < n
  {
    var q := DivCeil(n, d);
    assert n + d - 1 == d * q + (n + d - 1) % d;
    if q == 0 {
      assert d * q == 0;
    } else {
      assert d * (q - 1) == d * q - d;
    }
  }

  /** The count is the least number of chunks, but at least one, that hold all the bytes, as long as it fits 32 bits. */
  lemma FewestThatHold(totalBytes: nat, chunkSize: nat, k: nat)
    requires chunkSize > 0 && totalBytes <= chunkSize * (U32_LIMIT - 1)
    ensures ExpectedTotalChunks(totalBytes, chunkSize) <= k <==> 1 <= k && totalBytes <= chunkSize * k
  {
    if totalBytes > 0 {
      var n := DivCeil(totalBytes, chunkSize);
      DivCeilBounds(totalBytes, chunkSize);
      if n >= U32_LIMIT {
        MulMonotone(chunkSize, U32_LIMIT - 1, n - 1);
      }
      if n <= k {
        MulMonotone(chunkSize, n, k);
      } else {
        MulMonotone(chunkSize, k, n - 1);
      }
    }
  }

  lemma MulMonotone(k: nat, x: nat, y: nat)
    requires x <= y
    ensures k * x <= k * y
  {
  }

  /** The whole chunks of an accepted upload stay below the total, even when the count lost its high bits. */
  lemma WholeChunksFit(totalBytes: nat, chunkSize: nat, totalChunks: nat)
    requires Accepted(totalBytes, chunkSize, totalChunks)
    ensures chunkSize * (totalChunks - 1) < totalBytes
  {
    DivCeilBounds(totalBytes, chunkSize);
    assert totalChunks <= DivCeil(totalBytes, chunkSize);
    MulMonotone(chunkSize, totalChunks - 1, DivCeil(totalBytes, chunkSize) - 1);
  }

  lemma {:induction false} WholeChunksSum(totalBytes: nat, chunkSize: nat, totalChunks: nat, n: nat)
    requires n < totalChunks
    ensures ExpectedLens(totalBytes, chunkSize, totalChunks, n) == chunkSize * n
  {
    if n > 0 {
      WholeChunksSum(totalBytes, chunkSize, totalChunks, n - 1);
      assert chunkSize * n == chunkSize * (n - 1) + chunkSize;
    }
  }

  /** The lengths demanded of the chunks of an accepted upload add up to its total. */
  lemma ExpectedLensSum(totalBytes: nat, chunkSize: nat, totalChunks: nat)
    requires Accepted(totalBytes, chunkSize, totalChunks)
    ensures ExpectedLens(totalBytes, chunkSize, totalChunks, totalChunks) == totalBytes
  {
    WholeChunksFit(totalBytes, chunkSize, totalChunks);
    WholeChunksSum(totalBytes, chunkSize, totalChunks, totalChunks - 1);
  }

  /** The last chunk is never empty, and is at most a full chunk exactly when the count fits 32 bits. */
  lemma LastChunkBounds(totalBytes: nat, chunkSize: nat, totalChunks: nat)
    requires Accepted(totalBytes, chunkSize, totalChunks)
    ensures var last := ExpectedChunkLen(totalBytes, chunkSize, totalChunks, totalChunks - 1);
      1 <= last && (last <= chunkSize <==> DivCeil(totalBytes, chunkSize) < U32_LIMIT)
  {
    WholeChunksFit(totalBytes, chunkSize, totalChunks);
    DivCeilBounds(totalBytes, chunkSize);
    var q := DivCeil(totalBytes, chunkSize);
    var last := totalBytes - chunkSize * (totalChunks - 1);
    if q < U32_LIMIT {
      assert totalChunks == q;
      assert chunkSize * q == chunkSize * (q - 1) + chunkSize;
    } else {
      assert totalChunks < q;
      MulMonotone(chunkSize, totalChunks, q - 1);
      assert chunkSize * totalChunks == chunkSize * (totalChunks - 1) + chunkSize;
    }
  }

  // Slices of a file: what a client uploads for an index, and what a download serves for it.

  function Slice(data: Bytes, chunkSize: nat, index: nat): Bytes {
    Between(data, chunkSize * index, chunkSize * index + chunkSize)
  }

  function Slices(data: Bytes, chunkSize: nat, n: nat): (pieces: seq<Bytes>) {
    seq(n, i requires 0 <= i < n => Slice(data, chunkSize, i))
  }

  lemma BetweenJoin(data: Bytes, middle: nat, end: nat)
    requires middle <= end
    ensures Between(data, 0, middle) + Between(data, middle, end) == Between(data, 0, end)
  {
  }

  /** The first slices, laid end to end, are a prefix of the file. */
  lemma {:induction false} SlicesConcat(data: Bytes, chunkSize: nat, n: nat)
    ensures Concat(Slices(data, chunkSize, n)) == Between(data, 0, chunkSize * n)
  {
    if n == 0 {
      assert chunkSize * n == 0;
    } else {
      SlicesConcat(data, chunkSize, n - 1);
      var before, last := Slices(data, chunkSize, n - 1), Slice(data, chunkSize, n - 1);
      assert Slices(data, chunkSize, n) == before + [last];
      ConcatAppend(before, last);
      var middle, end := chunkSize * (n - 1), chunkSize * n;
      assert end == middle + chunkSize;
      BetweenJoin(data, middle, end);
    }
  }

  /** Enough slices tile the whole file, and a slice has the length the server demands for its index. */
  lemma SlicesTile(data: Bytes, chunkSize: nat, totalChunks: nat)
    requires chunkSize > 0 && |data| < U64_LIMIT
    requires totalChunks == DivCeil(|data|, chunkSize)
    ensures Concat(Slices(data, chunkSize, totalChunks)) == data
    ensures forall i :: 0 <= i < totalChunks ==>
      |Slice(data, chunkSize, i)| == ExpectedChunkLen(|data|, chunkSize, totalChunks, i)
  {
    DivCeilBounds(|data|, chunkSize);
    SlicesConcat(data, chunkSize, totalChunks);
    forall i | 0 <= i < totalChunks
      ensures |Slice(data, chunkSize, i)| == ExpectedChunkLen(|data|, chunkSize, totalChunks, i)
    {
      SliceLength(data, chunkSize, totalChunks, i);
    }
  }

  lemma SliceLength(data: Bytes, chunkSize: nat, totalChunks: nat, i: nat)
    requires chunkSize > 0 && |data| < U64_LIMIT && i < totalChunks
    requires chunkSize * (totalChunks - 1) < |data| <= chunkSize * totalChunks
    ensures |Slice(data, chunkSize, i)| == ExpectedChunkLen(|data|, chunkSize, totalChunks, i)
  {
    MulMonotone(chunkSize, i, totalChunks - 1);
    if i + 1 < totalChunks {
      MulMonotone(chunkSize, i + 1, totalChunks - 1);
      assert chunkSize * (i + 1) == chunkSize * i + chunkSize;
    } else {
      assert chunkSize * totalChunks == chunkSize * i + chunkSize;
    }
  }

  /** One chunk of a download, or nothing when the index is out of range. */
  function ServeChunk(data: Bytes, chunkSize: nat, index: nat): Option<Bytes>
    requires chunkSize > 0
  {
    var totalBytes := if |data| == 0 then 1 else |data|;
    if index >= ExpectedTotalChunks(totalBytes, chunkSize) then None
    else
      var start := SaturatingMul(index, chunkSize);
      var end := if start + chunkSize < |data| then start + chunkSize else |data|;
      if start >= |data| then Some([]) else Some(data[start..end])
  }

  function Served(data: Bytes, chunkSize: nat): (pieces: seq<Bytes>)
    requires chunkSize > 0
  {
    var n := ExpectedTotalChunks(if |data| == 0 then 1 else |data|, chunkSize);
    seq(n, i requires 0 <= i < n => ServeChunk(data, chunkSize, i).value)
  }

  lemma ServedPiece(data: Bytes, chunkSize: nat, i: nat)
    requires chunkSize > 0 && 0 < |data| < U64_LIMIT && i < |Served(data, chunkSize)|
    ensures chunkSize * i < |data| && Served(data, chunkSize)[i] == Slice(data, chunkSize, i)
  {
    var q := DivCeil(|data|, chunkSize);
    DivCeilBounds(|data|, chunkSize);
    MulMonotone(chunkSize, i, q - 1);
    assert i * chunkSize == chunkSize * i;
  }

  lemma ServedEmpty(chunkSize: nat)
    requires chunkSize > 0
    ensures Served([], chunkSize) == [[]] && Concat([[]]) == [] && DivCeil(0, chunkSize) == 0
  {
  }

  /**
    Fetching every index returns the file, the empty file included, exactly when its
    chunk count fits 32 bits; no offset computed on the way passes the end of the file.
   */
  lemma ServedIsWhole(data: Bytes, chunkSize: nat)
    requires chunkSize > 0 && |data| < U64_LIMIT
    ensures Concat(Served(data, chunkSize)) == data <==> DivCeil(|data|, chunkSize) < U32_LIMIT
    ensures forall i :: 0 <= i < |Served(data, chunkSize)| ==> chunkSize * i <= |data|
  {
    if data == [] {
      ServedEmpty(chunkSize);
    } else {
      var q, n := DivCeil(|data|, chunkSize), |Served(data, chunkSize)|;
      forall i | 0 <= i < n
        ensures chunkSize * i < |data| && Served(data, chunkSize)[i] == Slice(data, chunkSize, i)
      {
        ServedPiece(data, chunkSize, i);
      }
      assert Served(data, chunkSize) == Slices(data, chunkSize, n);
      SlicesConcat(data, chunkSize, n);
      DivCeilBounds(|data|, chunkSize);
      if q >= U32_LIMIT {
        MulMonotone(chunkSize, n, q - 1);
        assert |Between(data, 0, chunkSize * n)| < |data|;
      }
    }
  }

  // Staging file names.

  const CHUNK_SUFFIX := ".chunk"

  function ChunkName(index: nat): string {
    Padded(index, 8) + CHUNK_SUFFIX
  }

  /** No two indices share a staging file. */
  lemma ChunkNameInjective(i: nat, j: nat)
    requires ChunkName(i) == ChunkName(j)
    ensures i == j
  {
    assert ChunkName(i)[..|ChunkName(i)| - 6] == Padded(i, 8);
    assert ChunkName(j)[..|ChunkName(j)| - 6] == Padded(j, 8);
    PaddedInjective(i, j, 8);
  }

  /** A staging file is named by its index in eight digits, or as many as it takes, and ".chunk". */
  lemma ChunkNameReads(index: nat)
    ensures var (name, n) := (ChunkName(index), |ChunkName(index)| - 6);
      && n >= 8 && (n == 8 <==> index < 100_000_000)
      && (forall i :: 0 <= i < n ==> '0' <= name[i] <= '9') && ValueOf(name[..n]) == index
      && name[n..] == ".chunk"
  {
    var (name, digits) := (ChunkName(index), Padded(index, 8));
    assert name[..|digits|] == digits && name[|digits|..] == ".chunk";
    PaddedReads(index, 8);
    PaddedWidth(index, 8);
    EightDigits();
  }

  lemma EightDigits()
    ensures Pow10(8) == 100_000_000
  {
    assert Pow10(4) == 10_000;
    assert Pow10(8) == 10 * (10 * (10 * (10 * Pow10(4))));
  }

  predicate IsChunkName(name: string) {
    |name| >= 6 && name[|name| - 6..] == CHUNK_SUFFIX
  }

  /** The entries of a listing that are chunk files. */
  function ChunkEntries(names: seq<string>): (chunks: set<string>) {
    set name | name in names && IsChunkName(name)
  }

  /** The counting loop over a directory listing, in which a name occurs once. */
  method CountUploadedChunks(names: seq<string>) returns (count: nat)
    requires forall i, j :: 0 <= i < j < |names| ==> names[i] != names[j]
    ensures count == if |ChunkEntries(names)| < U32_LIMIT then |ChunkEntries(names)| else U32_LIMIT - 1
  {
    count := 0;
    var i := 0;
    while i < |names|
      invariant 0 <= i <= |names|
      invariant count == if |ChunkEntries(names[..i])| < U32_LIMIT then |ChunkEntries(names[..i])| else U32_LIMIT - 1
    {
      ListOneMore(names, i);
      if IsChunkName(names[i]) {
        count := if count + 1 < U32_LIMIT then count + 1 else U32_LIMIT - 1;
      }
      i := i + 1;
    }
    assert names[..|names|] == names;
  }

  lemma ListOneMore(names: seq<string>, i: nat)
    requires i < |names|
    requires forall i, j :: 0 <= i < j < |names| ==> names[i] != names[j]
    ensures |ChunkEntries(names[..i + 1])| == |ChunkEntries(names[..i])| + (if IsChunkName(names[i]) then 1 else 0)
  {
    var before := ChunkEntries(names[..i]);
    assert names[i] !in before;
    assert names[..i + 1] == names[..i] + [names[i]];
    assert ChunkEntries(names[..i + 1]) == if IsChunkName(names[i]) then before + {names[i]} else before;
  }

  /** A staging directory holding the files of a set of indices lists exactly that many chunks. */
  lemma {:induction false} StagedCount(indices: set<nat>, names: seq<string>)
    requires forall name :: name in names <==> exists i :: i in indices && name == ChunkName(i)
    ensures |ChunkEntries(names)| == |indices|
  {
    var staged := set i | i in indices :: ChunkName(i);
    forall i | i in indices
      ensures ChunkName(i) in names && IsChunkName(ChunkName(i))
    {
      assert ChunkName(i)[|ChunkName(i)| - 6..] == CHUNK_SUFFIX;
    }
    assert ChunkEntries(names) == staged;
    NamesCount(indices, staged);
  }

  lemma {:induction false} NamesCount(indices: set<nat>, names: set<string>)
    requires names == set i | i in indices :: ChunkName(i)
    ensures |names| == |indices|
    decreases |indices|
  {
    if indices != {} {
      var i :| i in indices;
      var fewer := indices - {i};
      var rest := set j | j in fewer :: ChunkName(j);
      NamesCount(fewer, rest);
      if ChunkName(i) in rest {
        var j :| j in fewer && ChunkName(j) == ChunkName(i);
        ChunkNameInjective(i, j);
      }
      assert names == rest + {ChunkName(i)};
    }
  }

  /** An index is served exactly when the file, or the one chunk of an empty file, has a chunk with it. */
  lemma ServedIffInRange(data: Bytes, chunkSize: nat, index: nat)
    requires chunkSize > 0 && DivCeil(|data|, chunkSize) < U32_LIMIT && |data| < U64_LIMIT
    ensures ServeChunk(data, chunkSize, index).Some? <==> index == 0 || chunkSize * index < |data|
  {
    if data == [] {
      ServedEmpty(chunkSize);
      assert DivCeil(1, chunkSize) == 1;
      assert index > 0 ==> chunkSize * index >= 0;
    } else {
      DivCeilBounds(|data|, chunkSize);
      var q := DivCeil(|data|, chunkSize);
      if index < q {
        MulMonotone(chunkSize, index, q - 1);
      } else {
        MulMonotone(chunkSize, q, index);
      }
    }
  }
}
