/**
  One chunked upload as a protocol. Any number of chunk PUTs, completes, cancels and
  clean-ups overlap; each is cut into the steps between which others may run, and a run
  is any sequence of steps. A step that is not due changes nothing.
 */
module UploadProtocol {
  import opened ByteStrings
  import opened ChunkArithmetic

  /** What `init_upload` recorded; it never changes afterwards. */
  datatype Upload = Upload(totalBytes: nat, chunkSize: nat, totalChunks: nat, expiresAt: nat)

  /**
    A call of `receive_chunk`. `Dropped` is a call that died after creating its file, which
    then keeps whatever was written.
   */
  datatype ReceivePhase = Checking | Creating | Writing | Counting(seen: set<nat>) | Recording(count: nat) | Answered | Dropped | Refused

  datatype Receive = Receive(index: nat, body: Bytes, phase: ReceivePhase, file: nat)
  {
    predicate HasFile() {
      phase.Writing? || phase.Counting? || phase.Recording? || phase.Answered? || phase.Dropped?
    }

    predicate Written() {
      phase.Counting? || phase.Recording? || phase.Answered?
    }
  }

  /** A staged file, open or not, linked in the directory or not, and the call that created it. */
  datatype StagedFile = StagedFile(data: Bytes, creator: nat)

  datatype Handle = Closed | Open(file: nat, buffer: Bytes)

  datatype CompletePhase = Starting | Probing(next: nat) | Reading | Stored | Rejected

  /** A call of `complete_upload`: the pieces read so far and the calls that created the files they came from. */
  datatype Complete = Complete(phase: CompletePhase, pieces: seq<Bytes>, sources: seq<nat>, handle: Handle)

  /** A cancel, an expiry clean-up, or the tail of a complete: entries are unlinked one by one, then the row goes. */
  datatype Teardown = Active | Finished

  datatype State = State(
    now: nat,
    row: Option<nat>,            // the received_chunks column while the row exists
    files: seq<StagedFile>,      // every file ever created
    staged: map<nat, nat>,       // the staging directory: index to file
    receives: seq<Receive>,
    completes: seq<Complete>,
    teardowns: seq<Teardown>,
    torn: bool)                  // whether any entry was ever unlinked

  datatype ReceiveAction = CheckChunk | CreateChunk | WriteSome(n: nat) | FinishWrite | ListEntry(i: nat) | EndListing | RecordCount | FailReceive

  datatype CompleteAction = CheckComplete | ProbeChunk | OpenChunk | ReadMore(n: nat) | EndOfFile | CompareTotal | FailComplete

  datatype Step =
    | Tick(elapsed: nat)
    | CallReceive(index: nat, body: Bytes)
    | OnReceive(r: nat, receiveAction: ReceiveAction)
    | CallComplete
    | OnComplete(c: nat, completeAction: CompleteAction)
    | StartCancel
    | StartCleanup
    | StartTail(c: nat)
    | Unlink(t: nat, index: nat)
    | DeleteRow(t: nat)

  function Init(): State {
    State(0, Some(0), [], map[], [], [], [], false)
  }

  predicate Expired(u: Upload, s: State) {
    s.now >= u.expiresAt
  }

  predicate LengthChecked(u: Upload, r: Receive) {
    && r.index < u.totalChunks
    && |r.body| == ExpectedChunkLen(u.totalBytes, u.chunkSize, u.totalChunks, r.index)
  }

  function WithReceive(s: State, r: nat, phase: ReceivePhase): State
    requires r < |s.receives|
  {
    s.(receives := s.receives[r := s.receives[r].(phase := phase)])
  }

  function StepReceive(u: Upload, s: State, r: nat, action: ReceiveAction): State
    requires r < |s.receives|
  {
    var call := s.receives[r];
    match (action, call.phase)
    case (CheckChunk, Checking) =>
      WithReceive(s, r, if s.row.None? || Expired(u, s) || !LengthChecked(u, call) then Refused else Creating)
    case (CreateChunk, Creating) =>
      if call.index in s.staged then WithReceive(s, r, Refused)
      else
        s.(files := s.files + [StagedFile([], r)],
           staged := s.staged[call.index := |s.files|],
           receives := s.receives[r := call.(phase := Writing, file := |s.files|)])
    case (WriteSome(n), Writing) =>
      if call.file >= |s.files| || |s.files[call.file].data| + n > |call.body| then s
      else s.(files := s.files[call.file := StagedFile(call.body[..|s.files[call.file].data| + n], r)])
    case (FinishWrite, Writing) =>
      if call.file < |s.files| && s.files[call.file].data == call.body then WithReceive(s, r, Counting({})) else s
    case (ListEntry(i), Counting(seen)) => if i in s.staged then WithReceive(s, r, Counting(seen + {i})) else s
    case (EndListing, Counting(seen)) => WithReceive(s, r, Recording(|seen|))
    case (RecordCount, Recording(count)) =>
      WithReceive(s.(row := if s.row.None? then None else Some(count)), r, Answered)
    case (FailReceive, Answered) => s
    case (FailReceive, Refused) => s
    case (FailReceive, _) => WithReceive(s, r, if call.HasFile() then Dropped else Refused)
    case _ => s
  }

  function WithComplete(s: State, c: nat, call: Complete): State
    requires c < |s.completes|
  {
    s.(completes := s.completes[c := call])
  }

  function StepComplete(u: Upload, s: State, c: nat, action: CompleteAction): State
    requires c < |s.completes|
  {
    var call := s.completes[c];
    match (action, call.phase)
    case (CheckComplete, Starting) =>
      WithComplete(s, c, call.(phase := if s.row.None? || Expired(u, s) then Rejected else Probing(0)))
    case (ProbeChunk, Probing(next)) =>
      WithComplete(s, c, call.(phase :=
        if next >= u.totalChunks then Reading else if next in s.staged then Probing(next + 1) else Rejected))
    case (OpenChunk, Reading) =>
      if call.handle.Open? || |call.pieces| >= u.totalChunks then s
      else if |call.pieces| in s.staged then WithComplete(s, c, call.(handle := Open(s.staged[|call.pieces|], [])))
      else WithComplete(s, c, call.(phase := Rejected))
    case (ReadMore(n), Reading) =>
      if call.handle.Closed? || call.handle.file >= |s.files| then s
      else
        var (data, at) := (s.files[call.handle.file].data, |call.handle.buffer|);
        if at + n > |data| then s
        else WithComplete(s, c, call.(handle := call.handle.(buffer := call.handle.buffer + data[at..at + n])))
    case (EndOfFile, Reading) =>
      if call.handle.Closed? || call.handle.file >= |s.files|
         || |call.handle.buffer| < |s.files[call.handle.file].data| then s
      else
        WithComplete(s, c, call.(pieces := call.pieces + [call.handle.buffer],
                                 sources := call.sources + [s.files[call.handle.file].creator],
                                 handle := Closed))
    case (CompareTotal, Reading) =>
      if call.handle.Open? || |call.pieces| < u.totalChunks then s
      else WithComplete(s, c, call.(phase := if TotalLength(call.pieces) == u.totalBytes then Stored else Rejected))
    case (FailComplete, Stored) => s
    case (FailComplete, _) => WithComplete(s, c, call.(phase := Rejected))
    case _ => s
  }

  function Apply(u: Upload, s: State, step: Step): State {
    match step
    case Tick(elapsed) => s.(now := s.now + elapsed)
    case CallReceive(index, body) => s.(receives := s.receives + [Receive(index, body, Checking, 0)])
    case CallComplete => s.(completes := s.completes + [Complete(Starting, [], [], Closed)])
    case StartCancel => if s.row.None? then s else s.(teardowns := s.teardowns + [Active])
    case StartCleanup =>
      if s.row.None? || !(u.expiresAt < s.now) then s else s.(teardowns := s.teardowns + [Active])
    case StartTail(c) =>
      if c < |s.completes| && s.completes[c].phase.Stored? then s.(teardowns := s.teardowns + [Active]) else s
    case Unlink(t, index) =>
      if t < |s.teardowns| && s.teardowns[t].Active? then s.(staged := s.staged - {index}, torn := true) else s
    case DeleteRow(t) =>
      if t < |s.teardowns| && s.teardowns[t].Active? then s.(row := None, teardowns := s.teardowns[t := Finished]) else s
    case OnReceive(r, action) => if r < |s.receives| then StepReceive(u, s, r, action) else s
    case OnComplete(c, action) => if c < |s.completes| then StepComplete(u, s, c, action) else s
  }

  function Run(u: Upload, s: State, steps: seq<Step>): State
    decreases |steps|
  {
    if steps == [] then s else Run(u, Apply(u, s, steps[0]), steps[1..])
  }

  // What every step keeps.

  /** A call that got past its checks has a body of the demanded length; its file holds a prefix of that body. */
  ghost predicate ReceiveOk(u: Upload, files: seq<StagedFile>, call: Receive, r: nat) {
    && (call.phase.Creating? || call.HasFile() ==> LengthChecked(u, call))
    && (call.HasFile() ==>
      && call.file < |files|
      && files[call.file].creator == r
      && files[call.file].data <= call.body
      && (call.Written() ==> files[call.file].data == call.body))
  }

  ghost predicate ReceivesOk(u: Upload, files: seq<StagedFile>, receives: seq<Receive>) {
    forall r :: 0 <= r < |receives| ==> ReceiveOk(u, files, receives[r], r)
  }

  /** Every file belongs to the call that created it. */
  ghost predicate FileOk(files: seq<StagedFile>, receives: seq<Receive>, f: nat)
    requires f < |files|
  {
    var r := files[f].creator;
    r < |receives| && receives[r].HasFile() && receives[r].file == f
  }

  ghost predicate FilesOk(files: seq<StagedFile>, receives: seq<Receive>) {
    forall f :: 0 <= f < |files| ==> FileOk(files, receives, f)
  }

  /** `f` is a file some call created for index `i`. */
  ghost predicate CreatedFor(files: seq<StagedFile>, receives: seq<Receive>, f: nat, i: nat) {
    f < |files| && FileOk(files, receives, f) && receives[files[f].creator].index == i
  }

  /** A directory entry leads to a file created for its index. */
  ghost predicate StagedOk(files: seq<StagedFile>, receives: seq<Receive>, staged: map<nat, nat>) {
    forall i :: i in staged ==> CreatedFor(files, receives, staged[i], i)
  }

  /** Every file is the entry of its index: true as long as nothing was unlinked. */
  ghost predicate AllLinked(files: seq<StagedFile>, receives: seq<Receive>, staged: map<nat, nat>) {
    forall f: nat, i: nat :: CreatedFor(files, receives, f, i) ==> i in staged && staged[i] == f
  }

  /** `r` is a call for `index` that passed its checks, and `piece` is the start of its body. */
  ghost predicate ComesFrom(u: Upload, receives: seq<Receive>, piece: Bytes, r: nat, index: nat) {
    && r < |receives|
    && receives[r].HasFile() && LengthChecked(u, receives[r])
    && receives[r].index == index
    && piece <= receives[r].body
  }

  ghost predicate CompleteOk(u: Upload, files: seq<StagedFile>, receives: seq<Receive>, c: Complete) {
    && |c.sources| == |c.pieces| <= u.totalChunks
    && (c.handle.Open? ==>
      && |c.pieces| < u.totalChunks
      && CreatedFor(files, receives, c.handle.file, |c.pieces|)
      && c.handle.buffer <= files[c.handle.file].data)
    && (forall i :: 0 <= i < |c.pieces| ==> ComesFrom(u, receives, c.pieces[i], c.sources[i], i))
    && (c.phase.Stored? ==> |c.pieces| == u.totalChunks && TotalLength(c.pieces) == u.totalBytes)
  }

  ghost predicate CompletesOk(u: Upload, files: seq<StagedFile>, receives: seq<Receive>, completes: seq<Complete>) {
    forall c :: 0 <= c < |completes| ==> CompleteOk(u, files, receives, completes[c])
  }

  /** No entry listed, counted or recorded is missing from the directory. */
  predicate CountOk(phase: ReceivePhase, staged: map<nat, nat>) {
    && (phase.Counting? ==> phase.seen <= staged.Keys)
    && (phase.Recording? ==> phase.count <= |staged|)
  }

  ghost predicate CountsOk(row: Option<nat>, receives: seq<Receive>, staged: map<nat, nat>) {
    && (row.Some? ==> row.value <= |staged|)
    && forall r :: 0 <= r < |receives| ==> CountOk(receives[r].phase, staged)
  }

  ghost predicate Inv(u: Upload, s: State) {
    && ReceivesOk(u, s.files, s.receives)
    && FilesOk(s.files, s.receives)
    && StagedOk(s.files, s.receives, s.staged)
    && CompletesOk(u, s.files, s.receives, s.completes)
    && (!s.torn ==> AllLinked(s.files, s.receives, s.staged) && CountsOk(s.row, s.receives, s.staged))
  }

  /** Calls keep index, body and file; files keep their creator and only grow. */
  ghost predicate Grows(files: seq<StagedFile>, receives: seq<Receive>, files': seq<StagedFile>, receives': seq<Receive>) {
    && |receives| <= |receives'| && |files| <= |files'|
    && (forall r :: 0 <= r < |receives| ==>
      && receives'[r].index == receives[r].index && receives'[r].body == receives[r].body
      && (receives[r].HasFile() ==> receives'[r].HasFile() && receives'[r].file == receives[r].file))
    && (forall f :: 0 <= f < |files| ==> files'[f].creator == files[f].creator && files[f].data <= files'[f].data)
  }

  lemma CompletesGrow(u: Upload, files: seq<StagedFile>, receives: seq<Receive>, completes: seq<Complete>,
                      files': seq<StagedFile>, receives': seq<Receive>)
    requires CompletesOk(u, files, receives, completes) && Grows(files, receives, files', receives')
    ensures CompletesOk(u, files', receives', completes)
  {
    forall c | 0 <= c < |completes|
      ensures CompleteOk(u, files', receives', completes[c])
    {
      var call := completes[c];
      forall i | 0 <= i < |call.pieces|
        ensures ComesFrom(u, receives', call.pieces[i], call.sources[i], i)
      {
        assert ComesFrom(u, receives, call.pieces[i], call.sources[i], i);
      }
    }
  }

  lemma CreateKeepsFiles(u: Upload, s: State, r: nat)
    requires Inv(u, s) && r < |s.receives| && s.receives[r].phase.Creating? && s.receives[r].index !in s.staged
    ensures var t := StepReceive(u, s, r, CreateChunk);
      && FilesOk(t.files, t.receives) && ReceivesOk(u, t.files, t.receives)
      && forall f :: 0 <= f < |s.files| ==> s.files[f].creator != r
  {
    var t := StepReceive(u, s, r, CreateChunk);
    assert ReceiveOk(u, s.files, s.receives[r], r);
    forall f | 0 <= f < |s.files|
      ensures FileOk(t.files, t.receives, f) && s.files[f].creator != r
    {
      assert FileOk(s.files, s.receives, f);
    }
    forall q | 0 <= q < |s.receives|
      ensures ReceiveOk(u, t.files, t.receives[q], q)
    {
      assert ReceiveOk(u, s.files, s.receives[q], q);
    }
  }

  lemma CreateKeepsLinks(u: Upload, s: State, r: nat)
    requires Inv(u, s) && r < |s.receives| && s.receives[r].phase.Creating? && s.receives[r].index !in s.staged
    ensures var t := StepReceive(u, s, r, CreateChunk);
      && StagedOk(t.files, t.receives, t.staged)
      && (!s.torn ==> AllLinked(t.files, t.receives, t.staged))
  {
    var call, t := s.receives[r], StepReceive(u, s, r, CreateChunk);
    CreateKeepsFiles(u, s, r);
    forall i | i in t.staged
      ensures CreatedFor(t.files, t.receives, t.staged[i], i)
    {
      if i != call.index {
        assert CreatedFor(s.files, s.receives, s.staged[i], i);
      }
    }
    if !s.torn {
      forall f: nat, i: nat | CreatedFor(t.files, t.receives, f, i)
        ensures i in t.staged && t.staged[i] == f
      {
        if f < |s.files| {
          assert FileOk(s.files, s.receives, f);
          assert CreatedFor(s.files, s.receives, f, i);
        }
      }
    }
  }

  /** Counts hold on in a directory that only gained entries. */
  lemma CountsGrow(row: Option<nat>, receives: seq<Receive>, staged: map<nat, nat>, receives': seq<Receive>, staged': map<nat, nat>)
    requires CountsOk(row, receives, staged) && staged.Keys <= staged'.Keys && |receives| == |receives'|
    requires forall r :: 0 <= r < |receives| ==> receives'[r].phase == receives[r].phase || receives'[r].phase.Writing?
    ensures CountsOk(row, receives', staged')
  {
    SubsetSize(staged.Keys, staged'.Keys);
    assert |staged| == |staged.Keys| && |staged'| == |staged'.Keys|;
    forall r | 0 <= r < |receives'| ensures CountOk(receives'[r].phase, staged') {
      assert CountOk(receives[r].phase, staged);
    }
  }

  lemma CreateKeeps(u: Upload, s: State, r: nat)
    requires Inv(u, s) && r < |s.receives| && s.receives[r].phase.Creating? && s.receives[r].index !in s.staged
    ensures Inv(u, StepReceive(u, s, r, CreateChunk))
  {
    var t := StepReceive(u, s, r, CreateChunk);
    CreateKeepsFiles(u, s, r);
    CreateKeepsLinks(u, s, r);
    CompletesGrow(u, s.files, s.receives, s.completes, t.files, t.receives);
    if !s.torn {
      CountsGrow(s.row, s.receives, s.staged, t.receives, t.staged);
    }
  }

  lemma WriteKeepsFiles(u: Upload, s: State, r: nat, n: nat)
    requires Inv(u, s) && r < |s.receives| && s.receives[r].phase.Writing?
    ensures var t := StepReceive(u, s, r, WriteSome(n));
      && FilesOk(t.files, t.receives) && ReceivesOk(u, t.files, t.receives) && Grows(s.files, s.receives, t.files, t.receives)
  {
    var call, t := s.receives[r], StepReceive(u, s, r, WriteSome(n));
    assert ReceiveOk(u, s.files, call, r);
    forall f | 0 <= f < |s.files|
      ensures FileOk(t.files, t.receives, f)
      ensures t.files[f].creator == s.files[f].creator && (s.files[f].creator != r ==> t.files[f] == s.files[f])
    {
      assert FileOk(s.files, s.receives, f);
    }
    forall q | 0 <= q < |s.receives|
      ensures ReceiveOk(u, t.files, t.receives[q], q)
    {
      assert ReceiveOk(u, s.files, s.receives[q], q);
    }
  }

  lemma WriteKeeps(u: Upload, s: State, r: nat, n: nat)
    requires Inv(u, s) && r < |s.receives| && s.receives[r].phase.Writing?
    ensures Inv(u, StepReceive(u, s, r, WriteSome(n)))
  {
    var t := StepReceive(u, s, r, WriteSome(n));
    WriteKeepsFiles(u, s, r, n);
    forall f: nat, i: nat
      ensures CreatedFor(t.files, t.receives, f, i) <==> CreatedFor(s.files, s.receives, f, i)
    {
    }
    CompletesGrow(u, s.files, s.receives, s.completes, t.files, t.receives);
  }

  /** A call moves to another phase and keeps, or still lacks, its file. */
  lemma PhaseKeeps(u: Upload, s: State, r: nat, phase: ReceivePhase)
    requires Inv(u, s) && r < |s.receives|
    requires var call := s.receives[r];
      && (call.(phase := phase).HasFile() <==> call.HasFile())
      && ReceiveOk(u, s.files, call.(phase := phase), r)
    requires !s.torn ==> CountOk(phase, s.staged)
    ensures Inv(u, WithReceive(s, r, phase))
  {
    var t := WithReceive(s, r, phase);
    forall q | 0 <= q < |s.receives|
      ensures ReceiveOk(u, t.files, t.receives[q], q)
    {
      assert ReceiveOk(u, s.files, s.receives[q], q);
    }
    forall f | 0 <= f < |s.files|
      ensures FileOk(t.files, t.receives, f)
    {
      assert FileOk(s.files, s.receives, f);
    }
    forall f: nat, i: nat
      ensures CreatedFor(t.files, t.receives, f, i) <==> CreatedFor(s.files, s.receives, f, i)
    {
    }
    CompletesGrow(u, s.files, s.receives, s.completes, t.files, t.receives);
  }

  lemma SubsetSize(part: set<nat>, whole: set<nat>)
    requires part <= whole
    ensures |part| <= |whole|
  {
    var rest := whole - part;
    assert whole == part + rest;
  }

  /** Ending a listing and recording its count. */
  lemma CountKeeps(u: Upload, s: State, r: nat, action: ReceiveAction)
    requires Inv(u, s) && r < |s.receives| && (action.ListEntry? || action.EndListing? || action.RecordCount?)
    ensures Inv(u, StepReceive(u, s, r, action))
  {
    var (call, t) := (s.receives[r], StepReceive(u, s, r, action));
    assert ReceiveOk(u, s.files, call, r);
    if t != s {
      if action.EndListing? && !s.torn {
        assert CountOk(call.phase, s.staged);
        SubsetSize(call.phase.seen, s.staged.Keys);
      }
      var before := if action.RecordCount? && s.row.Some? then s.(row := Some(call.phase.count)) else s;
      PhaseKeeps(u, before, r, t.receives[r].phase);
    }
  }

  lemma StepReceiveKeeps(u: Upload, s: State, r: nat, action: ReceiveAction)
    requires Inv(u, s) && r < |s.receives|
    ensures Inv(u, StepReceive(u, s, r, action))
  {
    var (call, t) := (s.receives[r], StepReceive(u, s, r, action));
    if action.CreateChunk? && call.phase.Creating? && call.index !in s.staged {
      CreateKeeps(u, s, r);
    } else if action.WriteSome? && call.phase.Writing? {
      WriteKeeps(u, s, r, action.n);
    } else if action.ListEntry? || action.EndListing? || action.RecordCount? {
      CountKeeps(u, s, r, action);
    } else if t != s {
      assert ReceiveOk(u, s.files, call, r);
      PhaseKeeps(u, s, r, t.receives[r].phase);
    }
  }

  /** Changing one complete keeps the invariant if the changed one is as it should be. */
  lemma CompleteKeeps(u: Upload, s: State, c: nat, call: Complete)
    requires Inv(u, s) && c < |s.completes| && CompleteOk(u, s.files, s.receives, call)
    ensures Inv(u, WithComplete(s, c, call))
  {
  }

  /** What is read from a staged file comes from the call that created it. */
  lemma BufferComesFrom(u: Upload, s: State, c: nat)
    requires Inv(u, s) && c < |s.completes| && s.completes[c].handle.Open?
    ensures var call := s.completes[c];
      && call.handle.file < |s.files|
      && ComesFrom(u, s.receives, call.handle.buffer, s.files[call.handle.file].creator, |call.pieces|)
  {
    var call := s.completes[c];
    assert CompleteOk(u, s.files, s.receives, call);
    var file := s.files[call.handle.file];
    assert FileOk(s.files, s.receives, call.handle.file);
    assert ReceiveOk(u, s.files, s.receives[file.creator], file.creator);
  }

  /** Opening, reading on and closing a staged file. */
  lemma ReadKeeps(u: Upload, s: State, c: nat, action: CompleteAction)
    requires Inv(u, s) && c < |s.completes| && s.completes[c].phase.Reading?
    requires action.OpenChunk? || action.ReadMore? || action.EndOfFile?
    ensures CompleteOk(u, s.files, s.receives, StepComplete(u, s, c, action).completes[c])
  {
    assert CompleteOk(u, s.files, s.receives, s.completes[c]);
    if action.EndOfFile? && s.completes[c].handle.Open? {
      BufferComesFrom(u, s, c);
    }
  }

  lemma StepCompleteKeeps(u: Upload, s: State, c: nat, action: CompleteAction)
    requires Inv(u, s) && c < |s.completes|
    ensures Inv(u, StepComplete(u, s, c, action))
  {
    var t := StepComplete(u, s, c, action);
    assert CompleteOk(u, s.files, s.receives, s.completes[c]);
    if s.completes[c].phase.Reading? && (action.OpenChunk? || action.ReadMore? || action.EndOfFile?) {
      ReadKeeps(u, s, c, action);
    }
    if t != s {
      CompleteKeeps(u, s, c, t.completes[c]);
    }
  }

  lemma ApplyKeeps(u: Upload, s: State, step: Step)
    requires Inv(u, s)
    ensures Inv(u, Apply(u, s, step))
  {
    match step
    case OnReceive(r, action) => if r < |s.receives| { StepReceiveKeeps(u, s, r, action); }
    case OnComplete(c, action) => if c < |s.completes| { StepCompleteKeeps(u, s, c, action); }
    case CallReceive(index, body) =>
      var t := Apply(u, s, step);
      forall f | 0 <= f < |s.files|
        ensures FileOk(t.files, t.receives, f)
      {
        assert FileOk(s.files, s.receives, f);
      }
      forall f: nat, i: nat
        ensures CreatedFor(t.files, t.receives, f, i) <==> CreatedFor(s.files, s.receives, f, i)
      {
      }
      CompletesGrow(u, s.files, s.receives, s.completes, t.files, t.receives);
    case _ =>
  }

  lemma {:induction false} RunKeeps(u: Upload, s: State, steps: seq<Step>)
    requires Inv(u, s)
    ensures Inv(u, Run(u, s, steps))
    decreases |steps|
  {
    if steps != [] {
      ApplyKeeps(u, s, steps[0]);
      RunKeeps(u, Apply(u, s, steps[0]), steps[1..]);
    }
  }

  // Why a successful complete is right.

  /** Pieces no longer than demanded that add up to the demanded total are each exactly as long as demanded. */
  lemma {:induction false} NoPieceIsShort(u: Upload, pieces: seq<Bytes>, n: nat)
    requires n <= |pieces|
    requires forall i :: 0 <= i < |pieces| ==>
      |pieces[i]| <= ExpectedChunkLen(u.totalBytes, u.chunkSize, u.totalChunks, i)
    ensures TotalLength(pieces[..n]) <= ExpectedLens(u.totalBytes, u.chunkSize, u.totalChunks, n)
    ensures TotalLength(pieces[..n]) == ExpectedLens(u.totalBytes, u.chunkSize, u.totalChunks, n) ==>
      forall i :: 0 <= i < n ==> |pieces[i]| == ExpectedChunkLen(u.totalBytes, u.chunkSize, u.totalChunks, i)
  {
    if n > 0 {
      NoPieceIsShort(u, pieces, n - 1);
      assert pieces[..n] == pieces[..n - 1] + [pieces[n - 1]];
      ConcatAppend(pieces[..n - 1], pieces[n - 1]);
    }
  }

  ghost predicate AcceptedUpload(u: Upload) {
    Accepted(u.totalBytes, u.chunkSize, u.totalChunks)
  }

  /**
    In every interleaving, a complete that succeeds stored, for each index in order, the
    whole body of one length-checked PUT for that index.
   */
  lemma StoredPiecesAreWholeBodies(u: Upload, steps: seq<Step>, c: nat)
    requires AcceptedUpload(u)
    ensures var s := Run(u, Init(), steps);
      c < |s.completes| && s.completes[c].phase.Stored? ==>
        var (pieces, sources) := (s.completes[c].pieces, s.completes[c].sources);
        && |pieces| == |sources| == u.totalChunks
        && forall i :: 0 <= i < u.totalChunks ==>
          && sources[i] < |s.receives|
          && s.receives[sources[i]].index == i
          && LengthChecked(u, s.receives[sources[i]])
          && pieces[i] == s.receives[sources[i]].body
  {
    RunKeeps(u, Init(), steps);
    var s := Run(u, Init(), steps);
    if c < |s.completes| && s.completes[c].phase.Stored? {
      var call := s.completes[c];
      assert CompleteOk(u, s.files, s.receives, call);
      forall i | 0 <= i < u.totalChunks
        ensures ComesFrom(u, s.receives, call.pieces[i], call.sources[i], i)
      {
      }
      ExpectedLensSum(u.totalBytes, u.chunkSize, u.totalChunks);
      NoPieceIsShort(u, call.pieces, u.totalChunks);
      assert call.pieces[..u.totalChunks] == call.pieces;
    }
  }

  /** As long as nothing was torn down, only one call ever created a file for an index; its body is the one stored. */
  lemma StoredBodyIsUnique(u: Upload, steps: seq<Step>, c: nat, r: nat)
    requires AcceptedUpload(u)
    ensures var s := Run(u, Init(), steps);
      && !s.torn
      && c < |s.completes| && s.completes[c].phase.Stored?
      && r < |s.receives| && s.receives[r].HasFile() ==>
        && s.receives[r].index < u.totalChunks == |s.completes[c].pieces|
        && s.completes[c].pieces[s.receives[r].index] == s.receives[r].body
  {
    RunKeeps(u, Init(), steps);
    StoredPiecesAreWholeBodies(u, steps, c);
    var s := Run(u, Init(), steps);
    if !s.torn && c < |s.completes| && s.completes[c].phase.Stored? && r < |s.receives| && s.receives[r].HasFile() {
      var call := s.completes[c];
      assert CompleteOk(u, s.files, s.receives, call);
      assert ReceiveOk(u, s.files, s.receives[r], r);
      var i := s.receives[r].index;
      var q := call.sources[i];
      assert ComesFrom(u, s.receives, call.pieces[i], q, i);
      assert ReceiveOk(u, s.files, s.receives[q], q);
      assert CreatedFor(s.files, s.receives, s.receives[r].file, i);
      assert CreatedFor(s.files, s.receives, s.receives[q].file, i);
    }
  }

  /** Once an entry was unlinked the row is there only as long as no teardown has finished. */
  predicate TeardownsOk(s: State) {
    && (s.torn ==> s.teardowns != [])
    && (s.row.Some? ==> forall t :: 0 <= t < |s.teardowns| ==> s.teardowns[t].Active?)
  }

  lemma {:induction false} RunKeepsTeardowns(u: Upload, s: State, steps: seq<Step>)
    requires TeardownsOk(s)
    ensures TeardownsOk(Run(u, s, steps))
    decreases |steps|
  {
    if steps != [] {
      ApplyKeepsTeardowns(u, s, steps[0]);
      RunKeepsTeardowns(u, Apply(u, s, steps[0]), steps[1..]);
    }
  }

  lemma ApplyKeepsTeardowns(u: Upload, s: State, step: Step)
    requires TeardownsOk(s)
    ensures TeardownsOk(Apply(u, s, step))
  {
  }

  /**
    The recorded progress runs ahead of the staged files, however counting and staging interleave, only while a teardown
    that unlinked some is unfinished; all staged indices are in range.
   */
  lemma ProgressNeverOverstated(u: Upload, steps: seq<Step>)
    ensures var s := Run(u, Init(), steps);
      && (!s.torn && s.row.Some? ==> s.row.value <= |s.staged|)
      && (s.row.Some? && s.row.value > |s.staged| ==>
           s.torn && s.teardowns != [] && forall t :: 0 <= t < |s.teardowns| ==> s.teardowns[t].Active?)
      && forall i :: i in s.staged ==> i < u.totalChunks
  {
    RunKeeps(u, Init(), steps);
    RunKeepsTeardowns(u, Init(), steps);
    var s := Run(u, Init(), steps);
    forall i | i in s.staged
      ensures i < u.totalChunks
    {
      assert CreatedFor(s.files, s.receives, s.staged[i], i);
      var r := s.files[s.staged[i]].creator;
      assert ReceiveOk(u, s.files, s.receives[r], r);
    }
  }

  // And a complete that nothing disturbs does succeed.

  /** Every index is staged, and the call that staged it has written its whole body. */
  ghost predicate AllUploaded(u: Upload, s: State) {
    forall i :: 0 <= i < u.totalChunks ==>
      && i in s.staged && s.staged[i] < |s.files|
      && s.files[s.staged[i]].creator < |s.receives|
      && s.receives[s.files[s.staged[i]].creator].Written()
  }

  function ProbeScript(c: nat, n: nat): (script: seq<Step>)
    ensures forall i :: 0 <= i < |script| ==> script[i].OnComplete?
  {
    if n == 0 then [OnComplete(c, ProbeChunk)] else [OnComplete(c, ProbeChunk)] + ProbeScript(c, n - 1)
  }

  lemma {:induction false} ProbesPass(u: Upload, s: State, c: nat, next: nat)
    requires c < |s.completes| && s.completes[c] == Complete(Probing(next), [], [], Closed) && next <= u.totalChunks
    requires forall i :: 0 <= i < u.totalChunks ==> i in s.staged
    ensures Run(u, s, ProbeScript(c, u.totalChunks - next)) == WithComplete(s, c, Complete(Reading, [], [], Closed))
    decreases u.totalChunks - next
  {
    var script := ProbeScript(c, u.totalChunks - next);
    var t := Apply(u, s, script[0]);
    if next < u.totalChunks {
      assert script[1..] == ProbeScript(c, u.totalChunks - (next + 1));
      ProbesPass(u, t, c, next + 1);
    } else {
      assert script[1..] == [];
    }
  }

  lemma {:induction false} FullPiecesTotal(u: Upload, pieces: seq<Bytes>, n: nat)
    requires n <= |pieces|
    requires forall i :: 0 <= i < |pieces| ==>
      |pieces[i]| == ExpectedChunkLen(u.totalBytes, u.chunkSize, u.totalChunks, i)
    ensures TotalLength(pieces[..n]) == ExpectedLens(u.totalBytes, u.chunkSize, u.totalChunks, n)
  {
    if n > 0 {
      FullPiecesTotal(u, pieces, n - 1);
      assert pieces[..n] == pieces[..n - 1] + [pieces[n - 1]];
      ConcatAppend(pieces[..n - 1], pieces[n - 1]);
    }
  }

  /** Every index is staged with a file of the demanded length. */
  ghost predicate WholeStaged(u: Upload, files: seq<StagedFile>, staged: map<nat, nat>) {
    forall i :: 0 <= i < u.totalChunks ==>
      && i in staged && staged[i] < |files|
      && |files[staged[i]].data| == ExpectedChunkLen(u.totalBytes, u.chunkSize, u.totalChunks, i)
  }

  lemma UploadedIsWhole(u: Upload, s: State)
    requires Inv(u, s) && AllUploaded(u, s)
    ensures WholeStaged(u, s.files, s.staged)
  {
    forall i | 0 <= i < u.totalChunks
      ensures |s.files[s.staged[i]].data| == ExpectedChunkLen(u.totalBytes, u.chunkSize, u.totalChunks, i)
    {
      var r := s.files[s.staged[i]].creator;
      assert CreatedFor(s.files, s.receives, s.staged[i], i);
      assert ReceiveOk(u, s.files, s.receives[r], r);
    }
  }

  ghost function ReadScript(u: Upload, files: seq<StagedFile>, staged: map<nat, nat>, c: nat, i: nat): (script: seq<Step>)
    requires WholeStaged(u, files, staged)
    ensures forall j :: 0 <= j < |script| ==> script[j].OnComplete?
    decreases u.totalChunks - i
  {
    if i >= u.totalChunks then [OnComplete(c, CompareTotal)]
    else
      [OnComplete(c, OpenChunk), OnComplete(c, ReadMore(|files[staged[i]].data|)), OnComplete(c, EndOfFile)]
      + ReadScript(u, files, staged, c, i + 1)
  }

  lemma Run3(u: Upload, s: State, a: Step, b: Step, d: Step, rest: seq<Step>)
    ensures Run(u, s, [a, b, d] + rest) == Run(u, Apply(u, Apply(u, Apply(u, s, a), b), d), rest)
  {
    assert ([a, b, d] + rest)[1..] == [b, d] + rest;
    assert ([b, d] + rest)[1..] == [d] + rest;
    assert ([d] + rest)[1..] == rest;
    assert Run(u, Apply(u, s, a), [b, d] + rest) == Run(u, Apply(u, Apply(u, s, a), b), [d] + rest);
  }

  /** Opening, reading and closing the next staged file appends its whole content. */
  lemma ReadOne(u: Upload, s: State, c: nat) returns (t: State)
    requires WholeStaged(u, s.files, s.staged)
    requires c < |s.completes| && s.completes[c].phase.Reading? && s.completes[c].handle.Closed?
    requires |s.completes[c].pieces| < u.totalChunks
    ensures var call := s.completes[c];
      var file := s.files[s.staged[|call.pieces|]];
      && t == Apply(u, Apply(u, Apply(u, s, OnComplete(c, OpenChunk)), OnComplete(c, ReadMore(|file.data|))),
                    OnComplete(c, EndOfFile))
      && t == WithComplete(s, c, call.(pieces := call.pieces + [file.data], sources := call.sources + [file.creator]))
  {
    var call := s.completes[c];
    var file := s.files[s.staged[|call.pieces|]];
    assert [] + file.data[0..|file.data|] == file.data;
    var begun := WithComplete(s, c, call.(handle := Open(s.staged[|call.pieces|], [])));
    assert Apply(u, s, OnComplete(c, OpenChunk)) == begun;
    var full := WithComplete(s, c, call.(handle := Open(s.staged[|call.pieces|], file.data)));
    assert Apply(u, begun, OnComplete(c, ReadMore(|file.data|))) == full;
    t := WithComplete(s, c, call.(pieces := call.pieces + [file.data], sources := call.sources + [file.creator]));
  }

  lemma {:induction false} ReadsAll(u: Upload, s: State, c: nat)
    requires AcceptedUpload(u) && WholeStaged(u, s.files, s.staged)
    requires c < |s.completes| && s.completes[c].phase.Reading? && s.completes[c].handle.Closed?
    requires |s.completes[c].pieces| <= u.totalChunks
    requires forall j :: 0 <= j < |s.completes[c].pieces| ==>
      |s.completes[c].pieces[j]| == ExpectedChunkLen(u.totalBytes, u.chunkSize, u.totalChunks, j)
    ensures var t := Run(u, s, ReadScript(u, s.files, s.staged, c, |s.completes[c].pieces|));
      c < |t.completes| && t.completes[c].phase.Stored?
    decreases u.totalChunks - |s.completes[c].pieces|
  {
    var i := |s.completes[c].pieces|;
    var script := ReadScript(u, s.files, s.staged, c, i);
    if i < u.totalChunks {
      var t := ReadOne(u, s, c);
      ReadsAll(u, t, c);
      Run3(u, s, script[0], script[1], script[2], ReadScript(u, s.files, s.staged, c, i + 1));
    } else {
      CompareStores(u, s, c);
    }
  }

  lemma CompareStores(u: Upload, s: State, c: nat)
    requires AcceptedUpload(u)
    requires c < |s.completes| && s.completes[c].phase.Reading? && s.completes[c].handle.Closed?
    requires |s.completes[c].pieces| == u.totalChunks
    requires forall j :: 0 <= j < u.totalChunks ==>
      |s.completes[c].pieces[j]| == ExpectedChunkLen(u.totalBytes, u.chunkSize, u.totalChunks, j)
    ensures Run(u, s, [OnComplete(c, CompareTotal)]) == WithComplete(s, c, s.completes[c].(phase := Stored))
  {
    var pieces := s.completes[c].pieces;
    FullPiecesTotal(u, pieces, u.totalChunks);
    ExpectedLensSum(u.totalBytes, u.chunkSize, u.totalChunks);
    assert pieces[..u.totalChunks] == pieces;
    assert Run(u, s, [OnComplete(c, CompareTotal)]) == Run(u, Apply(u, s, OnComplete(c, CompareTotal)), []);
  }

  lemma {:induction false} RunAppend(u: Upload, s: State, first: seq<Step>, second: seq<Step>)
    ensures Run(u, s, first + second) == Run(u, Run(u, s, first), second)
    decreases |first|
  {
    if first == [] {
      assert first + second == second;
    } else {
      assert (first + second)[1..] == first[1..] + second;
      RunAppend(u, Apply(u, s, first[0]), first[1..], second);
    }
  }

  /** The steps of a complete, which leave the staging directory and the receives alone. */
  predicate OfComplete(step: Step) {
    step.OnComplete? || step.CallComplete? || step == Tick(0)
  }

  lemma {:induction false} CompleteLeavesTheRest(u: Upload, s: State, steps: seq<Step>)
    requires forall i :: 0 <= i < |steps| ==> OfComplete(steps[i])
    ensures var t := Run(u, s, steps);
      t.(completes := s.completes) == s
    decreases |steps|
  {
    if steps != [] {
      CompleteLeavesTheRest(u, Apply(u, s, steps[0]), steps[1..]);
    }
  }

  function WithReading(s: State): State {
    s.(completes := s.completes + [Complete(Reading, [], [], Closed)])
  }

  /** An undisturbed complete passes its check and its probes. */
  lemma ReadingIsReached(u: Upload, s: State) returns (first: seq<Step>)
    requires s.row.Some? && !Expired(u, s) && forall i :: 0 <= i < u.totalChunks ==> i in s.staged
    ensures Run(u, s, first) == WithReading(s)
    ensures forall i :: 0 <= i < |first| ==> OfComplete(first[i])
  {
    var c := |s.completes|;
    var start := [Tick(0), CallComplete, OnComplete(c, CheckComplete)];
    var t := CompleteStarts(u, s);
    Run3(u, s, start[0], start[1], start[2], ProbeScript(c, u.totalChunks));
    ProbesPass(u, t, c, 0);
    first := start + ProbeScript(c, u.totalChunks);
  }

  /** And then reads every piece and finds the total right. */
  lemma CompleteFrom(u: Upload, s: State) returns (more: seq<Step>)
    requires AcceptedUpload(u) && WholeStaged(u, s.files, s.staged) && s.row.Some? && !Expired(u, s)
    ensures var t := Run(u, s, more);
      |t.completes| > |s.completes| && t.completes[|s.completes|].phase.Stored?
    ensures forall i :: 0 <= i < |more| ==> OfComplete(more[i])
  {
    var first := ReadingIsReached(u, s);
    var readings := ReadScript(u, s.files, s.staged, |s.completes|, 0);
    ReadsAll(u, WithReading(s), |s.completes|);
    RunAppend(u, s, first, readings);
    more := first + readings;
  }

  lemma CompleteStarts(u: Upload, s: State) returns (t: State)
    requires s.row.Some? && !Expired(u, s)
    ensures var c := |s.completes|;
      && t == Apply(u, Apply(u, Apply(u, s, Tick(0)), CallComplete), OnComplete(c, CheckComplete))
      && t == s.(completes := s.completes + [Complete(Probing(0), [], [], Closed)])
  {
    t := s.(completes := s.completes + [Complete(Probing(0), [], [], Closed)]);
  }

  /** From any reachable state in which every chunk is fully written and the session is live, a complete succeeds. */
  lemma CompleteCanSucceed(u: Upload, steps: seq<Step>) returns (more: seq<Step>)
    requires AcceptedUpload(u)
    requires var s := Run(u, Init(), steps); AllUploaded(u, s) && s.row.Some? && !Expired(u, s)
    ensures var s, t := Run(u, Init(), steps), Run(u, Init(), steps + more);
      |t.completes| > |s.completes| && t.completes[|s.completes|].phase.Stored?
    ensures forall i :: 0 <= i < |more| ==> OfComplete(more[i])
  {
    RunKeeps(u, Init(), steps);
    UploadedIsWhole(u, Run(u, Init(), steps));
    more := CompleteFrom(u, Run(u, Init(), steps));
    RunAppend(u, Init(), steps, more);
  }
}
