/** What an upload session does for its callers: which PUTs are taken, how a session ends, and that a whole upload goes through. */
module UploadProgress {
  import opened ByteStrings
  import opened ChunkArithmetic
  import opened UploadProtocol

  // One PUT.

  /** A PUT the session has a place for. */
  predicate Welcome(u: Upload, s: State, index: nat, body: Bytes) {
    && s.row.Some? && s.now < u.expiresAt
    && index < u.totalChunks && |body| == ExpectedChunkLen(u.totalBytes, u.chunkSize, u.totalChunks, index)
    && index !in s.staged
  }

  function Called(s: State, index: nat, body: Bytes, phase: ReceivePhase, file: nat): State {
    s.(receives := s.receives + [Receive(index, body, phase, file)])
  }

  /** With the PUT's file made, `data` written so far. */
  function Staging(s: State, index: nat, body: Bytes, data: Bytes, phase: ReceivePhase): State {
    Called(s, index, body, phase, |s.files|).(
      files := s.files + [StagedFile(data, |s.receives|)], staged := s.staged[index := |s.files|])
  }

  /** The PUT answered: its body staged, and the staged files counted. */
  function AfterPut(s: State, index: nat, body: Bytes): State {
    Staging(s, index, body, body, Answered).(row := Some(|s.staged[index := |s.files|]|))
  }

  function OpeningSteps(r: nat, index: nat, body: Bytes): seq<Step> {
    [CallReceive(index, body), OnReceive(r, CheckChunk), OnReceive(r, CreateChunk)]
  }

  /** A PUT is checked and its file made exactly when it is welcome; otherwise it is refused and nothing else changes. */
  lemma TakenIffWelcome(u: Upload, s: State, index: nat, body: Bytes)
    ensures var r := |s.receives|;
      Apply(u, Apply(u, Apply(u, s, CallReceive(index, body)), OnReceive(r, CheckChunk)), OnReceive(r, CreateChunk))
      == if Welcome(u, s, index, body) then Staging(s, index, body, [], Writing) else Called(s, index, body, Refused, 0)
  {
    var r := |s.receives|;
    var checked := Apply(u, Called(s, index, body, Checking, 0), OnReceive(r, CheckChunk));
    var passes := s.row.Some? && s.now < u.expiresAt && index < u.totalChunks
      && |body| == ExpectedChunkLen(u.totalBytes, u.chunkSize, u.totalChunks, index);
    assert checked == Called(s, index, body, if passes then Creating else Refused, 0);
  }

  lemma BodyIsWritten(u: Upload, s: State, index: nat, body: Bytes)
    ensures var r := |s.receives|;
      Apply(u, Apply(u, Staging(s, index, body, [], Writing), OnReceive(r, WriteSome(|body|))), OnReceive(r, FinishWrite))
      == Staging(s, index, body, body, Counting({}))
  {
    var r := |s.receives|;
    assert body[..|body|] == body;
    assert Apply(u, Staging(s, index, body, [], Writing), OnReceive(r, WriteSome(|body|))) == Staging(s, index, body, body, Writing);
  }

  function Listing(r: nat, indices: seq<nat>): (steps: seq<Step>)
    ensures forall i :: 0 <= i < |steps| ==> steps[i].OnReceive?
  {
    if indices == [] then [] else [OnReceive(r, ListEntry(indices[0]))] + Listing(r, indices[1..])
  }

  function SetOf(indices: seq<nat>): set<nat> {
    if indices == [] then {} else {indices[0]} + SetOf(indices[1..])
  }

  lemma {:induction false} EntriesAreListed(u: Upload, s: State, r: nat, seen: set<nat>, indices: seq<nat>)
    requires r < |s.receives| && s.receives[r].phase == Counting(seen) && SetOf(indices) <= s.staged.Keys
    ensures Run(u, s, Listing(r, indices)) == WithReceive(s, r, Counting(seen + SetOf(indices)))
    decreases |indices|
  {
    if indices == [] {
      assert seen + {} == seen;
    } else {
      var next := seen + {indices[0]};
      EntriesAreListed(u, WithReceive(s, r, Counting(next)), r, next, indices[1..]);
      assert next + SetOf(indices[1..]) == seen + SetOf(indices);
    }
  }

  lemma {:induction false} InSomeOrder(indices: set<nat>) returns (order: seq<nat>)
    ensures SetOf(order) == indices
    decreases |indices|
  {
    if indices == {} {
      order := [];
    } else {
      var i :| i in indices;
      var rest := InSomeOrder(indices - {i});
      order := [i] + rest;
    }
  }

  /** A call that lists the whole directory undisturbed records the number of staged files, not less. */
  lemma EveryFileIsCounted(u: Upload, s: State, r: nat) returns (more: seq<Step>)
    requires r < |s.receives| && s.receives[r].phase == Counting({}) && s.row.Some?
    ensures Run(u, s, more) == WithReceive(s.(row := Some(|s.staged|)), r, Answered)
    ensures forall i :: 0 <= i < |more| ==> more[i].OnReceive?
  {
    var order := InSomeOrder(s.staged.Keys);
    EntriesAreListed(u, s, r, {}, order);
    assert {} + SetOf(order) == s.staged.Keys;
    var end := [OnReceive(r, EndListing), OnReceive(r, RecordCount)];
    RunAppend(u, s, Listing(r, order), end);
    ListedIsRecorded(u, s, r);
    more := Listing(r, order) + end;
  }

  lemma ListedIsRecorded(u: Upload, s: State, r: nat)
    requires r < |s.receives| && s.row.Some?
    ensures Run(u, WithReceive(s, r, Counting(s.staged.Keys)), [OnReceive(r, EndListing), OnReceive(r, RecordCount)])
      == WithReceive(s.(row := Some(|s.staged|)), r, Answered)
  {
    RecordsTheCount(u, WithReceive(s, r, Counting(s.staged.Keys)), r);
    assert |s.staged.Keys| == |s.staged|;
  }

  lemma RecordsTheCount(u: Upload, s: State, r: nat)
    requires r < |s.receives| && s.receives[r].phase.Counting? && s.row.Some?
    ensures Run(u, s, [OnReceive(r, EndListing), OnReceive(r, RecordCount)])
      == WithReceive(s.(row := Some(|s.receives[r].phase.seen|)), r, Answered)
  {
    var ended := Apply(u, s, OnReceive(r, EndListing));
    assert [OnReceive(r, EndListing), OnReceive(r, RecordCount)][1..] == [OnReceive(r, RecordCount)];
    assert Run(u, ended, [OnReceive(r, RecordCount)]) == Apply(u, ended, OnReceive(r, RecordCount));
  }

  /** The steps of a PUT that is left alone. */
  predicate OfPut(steps: seq<Step>, index: nat, body: Bytes) {
    steps != [] && steps[0] == CallReceive(index, body) && forall i :: 1 <= i < |steps| ==> steps[i].OnReceive?
  }

  /** A welcome PUT that is left alone is answered, with its whole body staged under its index and every staged file counted. */
  lemma WelcomePutIsAnswered(u: Upload, s: State, index: nat, body: Bytes) returns (more: seq<Step>)
    requires Welcome(u, s, index, body)
    ensures OfPut(more, index, body) && Run(u, s, more) == AfterPut(s, index, body)
  {
    var r := |s.receives|;
    var opening := OpeningSteps(r, index, body);
    var writing := [OnReceive(r, WriteSome(|body|)), OnReceive(r, FinishWrite)];
    var counting := Staging(s, index, body, body, Counting({}));
    TakenIffWelcome(u, s, index, body);
    BodyIsWritten(u, s, index, body);
    var rest := EveryFileIsCounted(u, counting, r);
    TwoSteps(u, Staging(s, index, body, [], Writing), writing[0], writing[1], rest);
    Run3(u, s, opening[0], opening[1], opening[2], writing + rest);
    more := opening + (writing + rest);
  }

  lemma TwoSteps(u: Upload, s: State, a: Step, b: Step, rest: seq<Step>)
    ensures Run(u, s, [a, b] + rest) == Run(u, Apply(u, Apply(u, s, a), b), rest)
  {
    assert ([a, b] + rest)[1..] == [b] + rest;
    assert ([b] + rest)[1..] == rest;
    assert Run(u, Apply(u, s, a), [b] + rest) == Run(u, Apply(u, Apply(u, s, a), b), rest);
  }

  // A whole upload.

  /** The first `n` bodies staged, one call each. */
  function Uploaded(bodies: seq<Bytes>, n: nat): State
    requires n <= |bodies|
  {
    if n == 0 then Init() else AfterPut(Uploaded(bodies, n - 1), n - 1, bodies[n - 1])
  }

  ghost predicate HoldsFirst(s: State, bodies: seq<Bytes>, n: nat)
    requires n <= |bodies|
  {
    && s.now == 0 && s.row.Some? && !s.torn && s.completes == [] && |s.files| == |s.receives| == n
    && (forall i :: i in s.staged <==> 0 <= i < n)
    && (forall i :: 0 <= i < n ==> s.staged[i] == i && s.files[i] == StagedFile(bodies[i], i))
    && (forall i :: 0 <= i < n ==> s.receives[i] == Receive(i, bodies[i], Answered, i))
  }

  lemma PutHoldsOneMore(s: State, bodies: seq<Bytes>, n: nat)
    requires n < |bodies| && HoldsFirst(s, bodies, n)
    ensures HoldsFirst(AfterPut(s, n, bodies[n]), bodies, n + 1)
  {
  }

  lemma {:induction false} UploadedState(bodies: seq<Bytes>, n: nat)
    requires n <= |bodies|
    ensures HoldsFirst(Uploaded(bodies, n), bodies, n)
  {
    if n > 0 {
      UploadedState(bodies, n - 1);
      PutHoldsOneMore(Uploaded(bodies, n - 1), bodies, n - 1);
    }
  }

  predicate Fitting(u: Upload, bodies: seq<Bytes>) {
    && |bodies| == u.totalChunks
    && forall i :: 0 <= i < |bodies| ==> |bodies[i]| == ExpectedChunkLen(u.totalBytes, u.chunkSize, u.totalChunks, i)
  }

  lemma NextIsWelcome(u: Upload, bodies: seq<Bytes>, n: nat)
    requires Fitting(u, bodies) && 0 < u.expiresAt && n < |bodies|
    ensures Welcome(u, Uploaded(bodies, n), n, bodies[n])
  {
    UploadedState(bodies, n);
  }

  lemma NextPut(u: Upload, bodies: seq<Bytes>, n: nat) returns (put: seq<Step>)
    requires Fitting(u, bodies) && 0 < u.expiresAt && n < |bodies|
    ensures Run(u, Uploaded(bodies, n), put) == Uploaded(bodies, n + 1)
  {
    NextIsWelcome(u, bodies, n);
    put := WelcomePutIsAnswered(u, Uploaded(bodies, n), n, bodies[n]);
  }

  lemma {:induction false} FirstPutsAreAnswered(u: Upload, bodies: seq<Bytes>, n: nat) returns (steps: seq<Step>)
    requires Fitting(u, bodies) && 0 < u.expiresAt && n <= |bodies|
    ensures Run(u, Init(), steps) == Uploaded(bodies, n)
  {
    if n == 0 {
      steps := [];
    } else {
      var before := FirstPutsAreAnswered(u, bodies, n - 1);
      var put := NextPut(u, bodies, n - 1);
      RunAppend(u, Init(), before, put);
      steps := before + put;
    }
  }

  lemma UploadedIsStaged(u: Upload, bodies: seq<Bytes>)
    requires Fitting(u, bodies)
    ensures var s := Uploaded(bodies, |bodies|); AllUploaded(u, s) && WholeStaged(u, s.files, s.staged)
  {
    UploadedState(bodies, |bodies|);
    HeldIsStaged(u, Uploaded(bodies, |bodies|), bodies);
  }

  lemma HeldIsStaged(u: Upload, s: State, bodies: seq<Bytes>)
    requires Fitting(u, bodies) && HoldsFirst(s, bodies, |bodies|)
    ensures AllUploaded(u, s) && WholeStaged(u, s.files, s.staged)
  {
  }

  /** From the start of any session that init accepted, PUTs of fitting bodies and a complete can go through and store the bodies in order. */
  lemma WholeUploadGoesThrough(u: Upload, bodies: seq<Bytes>) returns (puts: seq<Step>, more: seq<Step>)
    requires AcceptedUpload(u) && 0 < u.expiresAt && Fitting(u, bodies)
    ensures AllUploaded(u, Run(u, Init(), puts))
    ensures var t := Run(u, Init(), puts + more);
      t.completes != [] && t.completes[0].phase.Stored? && t.completes[0].pieces == bodies
  {
    puts := FirstPutsAreAnswered(u, bodies, |bodies|);
    UploadedState(bodies, |bodies|);
    UploadedIsStaged(u, bodies);
    more := CompleteFrom(u, Uploaded(bodies, |bodies|));
    RunAppend(u, Init(), puts, more);
    StoresTheBodies(u, bodies, puts, more);
  }

  lemma StoresTheBodies(u: Upload, bodies: seq<Bytes>, puts: seq<Step>, more: seq<Step>)
    requires AcceptedUpload(u) && Fitting(u, bodies) && Run(u, Init(), puts) == Uploaded(bodies, |bodies|)
    requires forall i :: 0 <= i < |more| ==> OfComplete(more[i])
    requires var t := Run(u, Init(), puts + more); t.completes != [] && t.completes[0].phase.Stored?
    ensures Run(u, Init(), puts + more).completes[0].pieces == bodies
  {
    var t := Run(u, Init(), puts + more);
    UploadedState(bodies, |bodies|);
    RunAppend(u, Init(), puts, more);
    CompleteLeavesTheRest(u, Uploaded(bodies, |bodies|), more);
    StoredPiecesAreWholeBodies(u, puts + more, 0);
    forall i: nat | i < |bodies| ensures t.completes[0].pieces[i] == bodies[i] {
      StoredBodyIsUnique(u, puts + more, 0, i);
    }
  }

  // How a session ends.

  function Unlinking(t: nat, indices: seq<nat>): seq<Step> {
    if indices == [] then [] else [Unlink(t, indices[0])] + Unlinking(t, indices[1..])
  }

  lemma {:induction false} EntriesAreUnlinked(u: Upload, s: State, t: nat, indices: seq<nat>)
    requires t < |s.teardowns| && s.teardowns[t].Active?
    ensures Run(u, s, Unlinking(t, indices)) == s.(staged := s.staged - SetOf(indices), torn := s.torn || indices != [])
    decreases |indices|
  {
    if indices == [] {
      assert s.staged - {} == s.staged;
    } else {
      var next := Apply(u, s, Unlink(t, indices[0]));
      EntriesAreUnlinked(u, next, t, indices[1..]);
      assert s.staged - {indices[0]} - SetOf(indices[1..]) == s.staged - SetOf(indices);
    }
  }

  /** A teardown that runs to its end leaves neither an entry nor the row. */
  lemma TeardownEmpties(u: Upload, s: State, t: nat) returns (more: seq<Step>)
    requires t < |s.teardowns| && s.teardowns[t].Active?
    ensures var e := Run(u, s, more); e.row.None? && e.staged == map[] && e.receives == s.receives && e.completes == s.completes
  {
    var order := InSomeOrder(s.staged.Keys);
    EntriesAreUnlinked(u, s, t, order);
    RunAppend(u, s, Unlinking(t, order), [DeleteRow(t)]);
    more := Unlinking(t, order) + [DeleteRow(t)];
    assert s.staged - s.staged.Keys == map[];
    LastStep(u, Run(u, s, Unlinking(t, order)), DeleteRow(t));
  }

  lemma LastStep(u: Upload, s: State, step: Step)
    ensures Run(u, s, [step]) == Apply(u, s, step)
  {
  }

  /** A cancel starts tearing down exactly when there is a row, a clean-up exactly when the expiry has passed, too, a complete once it has stored. */
  lemma TeardownStarts(u: Upload, s: State)
    ensures var n := |s.teardowns|;
      && Apply(u, s, StartCancel) == (if s.row.Some? then s.(teardowns := s.teardowns + [Active]) else s)
      && Apply(u, s, StartCleanup) == (if s.row.Some? && Expired(u, s) && u.expiresAt != s.now then s.(teardowns := s.teardowns + [Active]) else s)
      && forall c {:trigger s.completes[c]} :: 0 <= c < |s.completes| && s.completes[c].phase.Stored? ==>
           Apply(u, s, StartTail(c)) == s.(teardowns := s.teardowns + [Active])
  {
  }

  /** The session is over: cancelled, completed, cleaned up or expired. */
  predicate Over(u: Upload, s: State) {
    s.row.None? || Expired(u, s)
  }

  predicate NoneTaken(s: State, receives: nat, completes: nat) {
    && (forall r :: receives <= r < |s.receives| ==> s.receives[r].phase.Checking? || s.receives[r].phase.Refused?)
    && (forall c :: completes <= c < |s.completes| ==> s.completes[c].phase.Starting? || s.completes[c].phase.Rejected?)
  }

  lemma NoReceiveIsTaken(u: Upload, s: State, r: nat, action: ReceiveAction, receives: nat, completes: nat)
    requires Over(u, s) && NoneTaken(s, receives, completes) && r < |s.receives|
    ensures var t := StepReceive(u, s, r, action);
      t.now == s.now && (s.row.None? ==> t.row.None?) && NoneTaken(t, receives, completes)
  {
  }

  lemma NoCompleteIsTaken(u: Upload, s: State, c: nat, action: CompleteAction, receives: nat, completes: nat)
    requires Over(u, s) && NoneTaken(s, receives, completes) && c < |s.completes|
    ensures var t := StepComplete(u, s, c, action);
      t.now == s.now && t.row == s.row && NoneTaken(t, receives, completes)
  {
  }

  lemma OverStays(u: Upload, s: State, step: Step, receives: nat, completes: nat)
    requires Over(u, s) && NoneTaken(s, receives, completes)
    ensures Over(u, Apply(u, s, step)) && NoneTaken(Apply(u, s, step), receives, completes)
  {
    match step
    case OnReceive(r, action) => if r < |s.receives| { NoReceiveIsTaken(u, s, r, action, receives, completes); }
    case OnComplete(c, action) => if c < |s.completes| { NoCompleteIsTaken(u, s, c, action, receives, completes); }
    case _ =>
  }

  /** Once a session is over it stays so, and no PUT and no complete that comes in is ever taken. */
  lemma {:induction false} NothingIsTakenAfterTheEnd(u: Upload, s: State, more: seq<Step>, receives: nat, completes: nat)
    requires Over(u, s) && NoneTaken(s, receives, completes)
    ensures var t := Run(u, s, more);
      Over(u, t) && NoneTaken(t, receives, completes)
    decreases |more|
  {
    if more != [] {
      OverStays(u, s, more[0], receives, completes);
      NothingIsTakenAfterTheEnd(u, Apply(u, s, more[0]), more[1..], receives, completes);
    }
  }
}
