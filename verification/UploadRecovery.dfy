/**
  What a PUT that dies leaves behind. Its file stays in the staging directory, and a retry is refused as already uploaded: a
  live session can still be completed exactly when no such file is shorter than the body it was for.
 */
module UploadRecovery {
  import opened ByteStrings
  import opened ChunkArithmetic
  import opened UploadProtocol
  import opened UploadProgress

  /** The entry of index `i` is the unfinished file of a call that died. */
  predicate Dead(s: State, i: nat) {
    && i in s.staged && s.staged[i] < |s.files|
    && var file := s.files[s.staged[i]];
      file.creator < |s.receives| && s.receives[file.creator].phase.Dropped? && |file.data| < |s.receives[file.creator].body|
  }

  ghost predicate NoneDead(s: State) {
    forall i :: i in s.staged ==> !Dead(s, i)
  }

  /** A welcome PUT of any body but the empty one can die right after its file is made, and leaves such a file. */
  lemma AnyPutCanDie(u: Upload, s: State, index: nat, body: Bytes)
    requires Welcome(u, s, index, body) && body != []
    ensures var r := |s.receives|;
      Dead(Apply(u, Apply(u, Apply(u, Apply(u, s, CallReceive(index, body)), OnReceive(r, CheckChunk)), OnReceive(r, CreateChunk)),
                 OnReceive(r, FailReceive)), index)
  {
    TakenIffWelcome(u, s, index, body);
  }

  /** No call is safe from failing: one that made no file is refused, a complete that has not stored is rejected. */
  lemma AnyCallCanFail(u: Upload, s: State, r: nat, c: nat)
    ensures r < |s.receives| && (s.receives[r].phase.Checking? || s.receives[r].phase.Creating?) ==>
      Apply(u, s, OnReceive(r, FailReceive)) == WithReceive(s, r, Refused)
    ensures r < |s.receives| && (s.receives[r].phase.Writing? || s.receives[r].phase.Counting? || s.receives[r].phase.Recording?) ==>
      Apply(u, s, OnReceive(r, FailReceive)) == WithReceive(s, r, Dropped)
    ensures c < |s.completes| && !s.completes[c].phase.Stored? ==>
      Apply(u, s, OnComplete(c, FailComplete)) == WithComplete(s, c, s.completes[c].(phase := Rejected))
  {
  }

  // Dead files stay and block.

  lemma CompleteTouchesNoFile(u: Upload, s: State, c: nat, action: CompleteAction)
    requires c < |s.completes|
    ensures StepComplete(u, s, c, action).(completes := s.completes) == s
  {
  }

  lemma CreateGrows(u: Upload, s: State, r: nat)
    requires Inv(u, s) && r < |s.receives| && s.receives[r].phase.Creating?
    ensures var t := StepReceive(u, s, r, CreateChunk);
      Grows(s.files, s.receives, t.files, t.receives) && t.completes == s.completes && t.torn == s.torn
  {
  }

  lemma ReceiveGrows(u: Upload, s: State, r: nat, action: ReceiveAction)
    requires Inv(u, s) && r < |s.receives|
    ensures var t := StepReceive(u, s, r, action);
      Grows(s.files, s.receives, t.files, t.receives) && t.completes == s.completes && t.torn == s.torn
  {
    if action.CreateChunk? && s.receives[r].phase.Creating? {
      CreateGrows(u, s, r);
    } else if action.WriteSome? && s.receives[r].phase.Writing? {
      WriteKeepsFiles(u, s, r, action.n);
    }
  }

  lemma OthersGrow(u: Upload, s: State, step: Step)
    requires Inv(u, s) && !step.OnComplete?
    ensures var t := Apply(u, s, step);
      && Grows(s.files, s.receives, t.files, t.receives) && (s.torn ==> t.torn)
      && (t.completes == s.completes || t.completes == s.completes + [Complete(Starting, [], [], Closed)])
  {
    match step
    case OnReceive(r, action) => if r < |s.receives| { ReceiveGrows(u, s, r, action); }
    case _ =>
  }

  lemma DeadStaysInReceive(u: Upload, s: State, r: nat, action: ReceiveAction, i: nat)
    requires Inv(u, s) && Dead(s, i) && r < |s.receives|
    ensures Dead(StepReceive(u, s, r, action), i)
  {
    assert ReceiveOk(u, s.files, s.receives[r], r);
    assert CreatedFor(s.files, s.receives, s.staged[i], i);
  }

  lemma DeadStays(u: Upload, s: State, step: Step, i: nat)
    requires Inv(u, s) && Dead(s, i) && !Apply(u, s, step).torn
    ensures Dead(Apply(u, s, step), i) && !s.torn
  {
    match step
    case OnReceive(r, action) => if r < |s.receives| {
      DeadStaysInReceive(u, s, r, action, i);
      ReceiveGrows(u, s, r, action);
    }
    case OnComplete(c, action) => if c < |s.completes| { CompleteTouchesNoFile(u, s, c, action); }
    case _ =>
  }

  lemma {:induction false} TornStays(u: Upload, s: State, steps: seq<Step>)
    requires Inv(u, s) && s.torn
    ensures Run(u, s, steps).torn
    decreases |steps|
  {
    if steps != [] {
      if !steps[0].OnComplete? {
        OthersGrow(u, s, steps[0]);
      }
      ApplyKeeps(u, s, steps[0]);
      TornStays(u, Apply(u, s, steps[0]), steps[1..]);
    }
  }

  /** As long as nothing is unlinked, a dead file keeps its index for good. */
  lemma {:induction false} DeadForGood(u: Upload, s: State, more: seq<Step>, i: nat)
    requires Inv(u, s) && Dead(s, i) && !Run(u, s, more).torn
    ensures Dead(Run(u, s, more), i)
    decreases |more|
  {
    if more != [] {
      var next := Apply(u, s, more[0]);
      ApplyKeeps(u, s, more[0]);
      if next.torn {
        TornStays(u, next, more[1..]);
      }
      DeadStays(u, s, more[0], i);
      DeadForGood(u, next, more[1..], i);
    }
  }

  /** A piece is a beginning of what the file it was read from holds. */
  ghost predicate InFile(files: seq<StagedFile>, receives: seq<Receive>, piece: Bytes, r: nat) {
    r < |receives| && receives[r].HasFile() && receives[r].file < |files| && piece <= files[receives[r].file].data
  }

  ghost predicate PiecesInFiles(files: seq<StagedFile>, receives: seq<Receive>, c: Complete) {
    |c.sources| == |c.pieces| && forall i :: 0 <= i < |c.pieces| ==> InFile(files, receives, c.pieces[i], c.sources[i])
  }

  ghost predicate AllInFiles(s: State) {
    forall c :: 0 <= c < |s.completes| ==> PiecesInFiles(s.files, s.receives, s.completes[c])
  }

  lemma StayInFiles(files: seq<StagedFile>, receives: seq<Receive>, files': seq<StagedFile>, receives': seq<Receive>, c: Complete)
    requires Grows(files, receives, files', receives') && PiecesInFiles(files, receives, c)
    ensures PiecesInFiles(files', receives', c)
  {
    forall i | 0 <= i < |c.pieces| ensures InFile(files', receives', c.pieces[i], c.sources[i]) {
      assert InFile(files, receives, c.pieces[i], c.sources[i]);
    }
  }

  lemma CompleteKeepsInFiles(u: Upload, s: State, c: nat, action: CompleteAction)
    requires Inv(u, s) && c < |s.completes| && PiecesInFiles(s.files, s.receives, s.completes[c])
    ensures var t := StepComplete(u, s, c, action);
      t == s.(completes := t.completes) && |t.completes| == |s.completes|
      && (forall d :: 0 <= d < |s.completes| && d != c ==> t.completes[d] == s.completes[d])
      && PiecesInFiles(s.files, s.receives, t.completes[c])
  {
    var call := s.completes[c];
    assert CompleteOk(u, s.files, s.receives, call);
    if call.handle.Open? {
      BufferComesFrom(u, s, c);
      var q := s.files[call.handle.file].creator;
      assert FileOk(s.files, s.receives, call.handle.file);
      assert InFile(s.files, s.receives, call.handle.buffer, q);
    }
  }

  lemma ApplyKeepsInFiles(u: Upload, s: State, step: Step)
    requires Inv(u, s) && AllInFiles(s)
    ensures AllInFiles(Apply(u, s, step))
  {
    if step.OnComplete? {
      if step.c < |s.completes| {
        CompleteKeepsInFiles(u, s, step.c, step.completeAction);
      }
    } else {
      var t := Apply(u, s, step);
      OthersGrow(u, s, step);
      forall c | 0 <= c < |t.completes| ensures PiecesInFiles(t.files, t.receives, t.completes[c]) {
        if c < |s.completes| {
          StayInFiles(s.files, s.receives, t.files, t.receives, s.completes[c]);
        }
      }
    }
  }

  lemma {:induction false} RunKeepsInFiles(u: Upload, s: State, steps: seq<Step>)
    requires Inv(u, s) && AllInFiles(s)
    ensures AllInFiles(Run(u, s, steps))
    decreases |steps|
  {
    if steps != [] {
      ApplyKeeps(u, s, steps[0]);
      ApplyKeepsInFiles(u, s, steps[0]);
      RunKeepsInFiles(u, Apply(u, s, steps[0]), steps[1..]);
    }
  }

  /** While a dead file is linked, and nothing was unlinked, no complete has stored anything. */
  lemma DeadFileBlocks(u: Upload, steps: seq<Step>, i: nat, c: nat)
    requires AcceptedUpload(u)
    ensures var t := Run(u, Init(), steps); !t.torn && Dead(t, i) && c < |t.completes| ==> !t.completes[c].phase.Stored?
  {
    var t := Run(u, Init(), steps);
    if !t.torn && Dead(t, i) && c < |t.completes| && t.completes[c].phase.Stored? {
      RunKeeps(u, Init(), steps);
      RunKeepsInFiles(u, Init(), steps);
      ProgressNeverOverstated(u, steps);
      StoredPiecesAreWholeBodies(u, steps, c);
      var call := t.completes[c];
      assert PiecesInFiles(t.files, t.receives, call);
      var q := call.sources[i];
      assert InFile(t.files, t.receives, call.pieces[i], q);
      assert ReceiveOk(u, t.files, t.receives[q], q);
      assert CreatedFor(t.files, t.receives, t.receives[q].file, i);
      assert false;
    }
  }

  /** A dead file refuses every PUT for its index and fails every complete until a teardown begins to unlink. */
  lemma DeadPutBlocks(u: Upload, steps: seq<Step>, more: seq<Step>, i: nat)
    requires AcceptedUpload(u) && Dead(Run(u, Init(), steps), i)
    ensures var t := Run(u, Init(), steps + more);
      !t.torn ==> Dead(t, i) && (forall body :: !Welcome(u, t, i, body)) && forall c :: 0 <= c < |t.completes| ==> !t.completes[c].phase.Stored?
  {
    var t := Run(u, Init(), steps + more);
    RunKeeps(u, Init(), steps);
    RunAppend(u, Init(), steps, more);
    if !t.torn {
      DeadForGood(u, Run(u, Init(), steps), more, i);
      forall c | 0 <= c < |t.completes| ensures !t.completes[c].phase.Stored? {
        DeadFileBlocks(u, steps + more, i, c);
      }
    }
  }

  // Without dead files the upload can be finished.

  /** Index `i` is staged with a file of the demanded length. */
  predicate WholeAt(u: Upload, s: State, i: nat) {
    && i in s.staged && s.staged[i] < |s.files|
    && |s.files[s.staged[i]].data| == ExpectedChunkLen(u.totalBytes, u.chunkSize, u.totalChunks, i)
  }

  ghost predicate Healthy(u: Upload, s: State, n: nat) {
    && Inv(u, s) && s.row.Some? && !Expired(u, s) && !s.torn && NoneDead(s)
    && forall i :: 0 <= i < n ==> WholeAt(u, s, i)
  }

  /** A staged index is whole, or the call for it is still writing. */
  lemma StagedIsWholeOrWriting(u: Upload, s: State, i: nat)
    requires Inv(u, s) && NoneDead(s) && i in s.staged
    ensures CreatedFor(s.files, s.receives, s.staged[i], i)
    ensures WholeAt(u, s, i) || s.receives[s.files[s.staged[i]].creator].phase.Writing?
  {
    var f := s.staged[i];
    assert CreatedFor(s.files, s.receives, f, i);
    var r := s.files[f].creator;
    assert ReceiveOk(u, s.files, s.receives[r], r);
    assert !Dead(s, i);
  }

  lemma WritingFinishes(u: Upload, s: State, n: nat) returns (step: Step)
    requires Healthy(u, s, n) && n in s.staged && !WholeAt(u, s, n)
    ensures Healthy(u, Apply(u, s, step), n + 1) && Apply(u, s, step).completes == s.completes
  {
    StagedIsWholeOrWriting(u, s, n);
    var f := s.staged[n];
    var r := s.files[f].creator;
    var call := s.receives[r];
    assert ReceiveOk(u, s.files, call, r);
    step := OnReceive(r, WriteSome(|call.body| - |s.files[f].data|));
    ApplyKeeps(u, s, step);
    var t := Apply(u, s, step);
    assert t == s.(files := s.files[f := StagedFile(call.body, r)]) by {
      assert call.body[..|call.body|] == call.body;
    }
    forall i | 0 <= i < n + 1 ensures WholeAt(u, t, i) {
      if i < n {
        assert WholeAt(u, s, i);
        assert CreatedFor(s.files, s.receives, s.staged[i], i);
      }
    }
    forall i | i in t.staged ensures !Dead(t, i) {
      assert !Dead(s, i);
    }
  }

  lemma MissingIsPut(u: Upload, s: State, n: nat) returns (more: seq<Step>)
    requires Healthy(u, s, n) && n !in s.staged && n < u.totalChunks
    ensures Healthy(u, Run(u, s, more), n + 1) && Run(u, s, more).completes == s.completes
  {
    var body := seq(ExpectedChunkLen(u.totalBytes, u.chunkSize, u.totalChunks, n), _ => 0);
    more := WelcomePutIsAnswered(u, s, n, body);
    RunKeeps(u, s, more);
    var t := AfterPut(s, n, body);
    forall i | 0 <= i < n + 1 ensures WholeAt(u, t, i) {
      assert i < n ==> WholeAt(u, s, i);
    }
    forall i | i in t.staged ensures !Dead(t, i) {
      if i != n {
        assert !Dead(s, i);
        assert CreatedFor(s.files, s.receives, s.staged[i], i);
      }
    }
  }

  lemma {:induction false} AllMadeWhole(u: Upload, s: State, n: nat) returns (more: seq<Step>)
    requires Healthy(u, s, 0) && n <= u.totalChunks
    ensures Healthy(u, Run(u, s, more), n) && Run(u, s, more).completes == s.completes
  {
    if n == 0 {
      more := [];
    } else {
      var before := AllMadeWhole(u, s, n - 1);
      var t := Run(u, s, before);
      var next: seq<Step> := [];
      if n - 1 !in t.staged {
        next := MissingIsPut(u, t, n - 1);
      } else if !WholeAt(u, t, n - 1) {
        var step := WritingFinishes(u, t, n - 1);
        next := [step];
        LastStep(u, t, step);
      }
      RunAppend(u, s, before, next);
      more := before + next;
    }
  }

  /** The continuation ends with a new complete that stored, and nothing was unlinked. */
  ghost predicate Finishes(u: Upload, steps: seq<Step>, more: seq<Step>) {
    var (s, t) := (Run(u, Init(), steps), Run(u, Init(), steps + more));
    !t.torn && |t.completes| > |s.completes| && t.completes[|s.completes|].phase.Stored?
  }

  lemma HealthyFinishes(u: Upload, steps: seq<Step>) returns (more: seq<Step>)
    requires AcceptedUpload(u) && Healthy(u, Run(u, Init(), steps), 0)
    ensures Finishes(u, steps, more)
  {
    var s := Run(u, Init(), steps);
    var puts := AllMadeWhole(u, s, u.totalChunks);
    var t := Run(u, s, puts);
    forall i | 0 <= i < u.totalChunks
      ensures i in t.staged && t.staged[i] < |t.files|
      ensures |t.files[t.staged[i]].data| == ExpectedChunkLen(u.totalBytes, u.chunkSize, u.totalChunks, i)
    {
      assert WholeAt(u, t, i);
    }
    var rest := CompleteFrom(u, t);
    CompleteLeavesTheRest(u, t, rest);
    RunAppend(u, s, puts, rest);
    more := puts + rest;
    RunAppend(u, Init(), steps, more);
  }

  /**
    Wherever a live session has got to with nothing unlinked, its upload can still be finished exactly when no PUT died
    leaving an unfinished file.
   */
  lemma CanFinishIffNoneDead(u: Upload, steps: seq<Step>)
    requires AcceptedUpload(u)
    requires var s := Run(u, Init(), steps); s.row.Some? && !Expired(u, s) && !s.torn
    ensures NoneDead(Run(u, Init(), steps)) <==> exists more :: Finishes(u, steps, more)
  {
    var s := Run(u, Init(), steps);
    RunKeeps(u, Init(), steps);
    if NoneDead(s) {
      var more := HealthyFinishes(u, steps);
    } else {
      var i :| i in s.staged && Dead(s, i);
      forall more ensures !Finishes(u, steps, more) {
        DeadPutBlocks(u, steps, more, i);
      }
    }
  }
}
