/** Client, protocol and container together: what a finished chunked upload leaves on disk. */
module EndToEnd {
  import opened ByteStrings
  import opened Crypto
  import opened StreamFormat
  import opened StreamTheorems
  import opened ChunkArithmetic
  import opened UploadProtocol
  import Encrypted = EncryptedFile

  /** Every PUT of the session carries the client's slice for its index, as `uploadOneChunk` cuts it. */
  ghost predicate FromClient(u: Upload, file: Bytes, steps: seq<Step>) {
    forall i :: 0 <= i < |steps| && steps[i].CallReceive? ==>
      steps[i].body == Slice(file, u.chunkSize, steps[i].index)
  }

  ghost predicate BodiesAreSlices(u: Upload, file: Bytes, s: State) {
    forall r :: 0 <= r < |s.receives| ==> s.receives[r].body == Slice(file, u.chunkSize, s.receives[r].index)
  }

  lemma {:induction false} RunKeepsSlices(u: Upload, file: Bytes, s: State, steps: seq<Step>)
    requires BodiesAreSlices(u, file, s) && FromClient(u, file, steps)
    ensures BodiesAreSlices(u, file, Run(u, s, steps))
    decreases |steps|
  {
    if steps != [] {
      ApplyKeepsSlices(u, file, s, steps[0]);
      RunKeepsSlices(u, file, Apply(u, s, steps[0]), steps[1..]);
    }
  }

  lemma ApplyKeepsSlices(u: Upload, file: Bytes, s: State, step: Step)
    requires BodiesAreSlices(u, file, s)
    requires step.CallReceive? ==> step.body == Slice(file, u.chunkSize, step.index)
    ensures BodiesAreSlices(u, file, Apply(u, s, step))
  {
    match step
    case OnReceive(r, action) => if r < |s.receives| { BodiesStay(u, s, r, action); }
    case _ =>
  }

  lemma BodiesStay(u: Upload, s: State, r: nat, action: ReceiveAction)
    requires r < |s.receives|
    ensures var t := StepReceive(u, s, r, action);
      |t.receives| == |s.receives|
      && forall q :: 0 <= q < |s.receives| ==> t.receives[q].index == s.receives[q].index && t.receives[q].body == s.receives[q].body
  {
  }

  /** The pieces a successful complete encrypts are, laid end to end, the file the client sent. */
  lemma StoredPiecesAreTheFile(u: Upload, file: Bytes, steps: seq<Step>, c: nat)
    requires AcceptedUpload(u) && u.totalBytes == |file| && FromClient(u, file, steps)
    ensures var s := Run(u, Init(), steps);
      c < |s.completes| && s.completes[c].phase.Stored? ==>
        && |s.completes[c].pieces| == u.totalChunks
        && Concat(s.completes[c].pieces) == file
        && forall i :: 0 <= i < u.totalChunks ==> |s.completes[c].pieces[i]| <= u.chunkSize
  {
    RunKeepsSlices(u, file, Init(), steps);
    RunKeeps(u, Init(), steps);
    StoredPiecesAreWholeBodies(u, steps, c);
    var s := Run(u, Init(), steps);
    if c < |s.completes| && s.completes[c].phase.Stored? {
      assert CompleteOk(u, s.files, s.receives, s.completes[c]);
      PiecesAreSlices(u, file, s.receives, s.completes[c].pieces, s.completes[c].sources);
    }
  }

  /** Slices for all indices in order that add up to the file's length are the file. */
  lemma PiecesAreSlices(u: Upload, file: Bytes, receives: seq<Receive>, pieces: seq<Bytes>, sources: seq<nat>)
    requires |pieces| == |sources| == u.totalChunks && TotalLength(pieces) == |file|
    requires forall r :: 0 <= r < |receives| ==> receives[r].body == Slice(file, u.chunkSize, receives[r].index)
    requires forall i :: 0 <= i < |pieces| ==>
      sources[i] < |receives| && receives[sources[i]].index == i && pieces[i] == receives[sources[i]].body
    ensures Concat(pieces) == file && forall i :: 0 <= i < |pieces| ==> |pieces[i]| <= u.chunkSize
  {
    var size, n := u.chunkSize, |pieces|;
    forall i | 0 <= i < n
      ensures pieces[i] == Slice(file, size, i) && |pieces[i]| <= size
    {
      SliceIsShort(file, size, i);
    }
    assert pieces == Slices(file, size, n);
    ConcatLength(pieces);
    SlicesConcat(file, size, n);
    WholeStart(file, size * n);
  }

  lemma SliceIsShort(file: Bytes, size: nat, i: nat)
    ensures |Slice(file, size, i)| <= size
  {
  }

  /** A beginning as long as the file is the file. */
  lemma WholeStart(file: Bytes, end: nat)
    ensures |Between(file, 0, end)| == |file| ==> Between(file, 0, end) == file
  {
  }

  /**
    If the client cuts a file into slices and a complete succeeds, then, however PUTs,
    completes, cancels and clean-ups interleaved, the file that complete wrote decrypts to
    exactly the client's file.
   */
  lemma UploadedFileReadsBack(a: Aead, h: Hash, key: Bytes, stream: Bytes,
                              u: Upload, file: Bytes, steps: seq<Step>, c: nat)
    requires LawfulAead(a) && LawfulHash(h) && |stream| == STREAM_NONCE_LEN
    requires AcceptedUpload(u) && u.totalBytes == |file| && u.chunkSize + TAG_LEN < U32_LIMIT
    requires FromClient(u, file, steps)
    ensures var s := Run(u, Init(), steps);
      c < |s.completes| && s.completes[c].phase.Stored? ==>
        var stored := StreamFile(a, h, key, stream, s.completes[c].pieces);
        && Encrypted.Plaintext(a, h, key, stored) == Some(file)
        && |stored| == |file| + 42 + 20 * u.totalChunks
  {
    StoredPiecesAreTheFile(u, file, steps, c);
    var s := Run(u, Init(), steps);
    if c < |s.completes| && s.completes[c].phase.Stored? {
      var pieces := s.completes[c].pieces;
      Encrypted.ReadsWhatWasWritten(a, h, key, seq(NONCE_LEN, i => 0), [], stream, pieces);
      DiskLength(a, h, key, stream, pieces);
      ConcatLength(pieces);
    }
  }
}
