/**
  The browser's worker pool and the server's upload session run together. A worker's request becomes a call on the server; a
  worker may be told of success only once its call was answered, and of failure at any time.
 */
module JointUpload {
  import opened ByteStrings
  import opened Crypto
  import opened ChunkArithmetic
  import StreamFormat
  import Encrypted = EncryptedFile
  import Client = WorkerPool
  import Server = UploadProtocol
  import EndToEnd

  /** `requests` leads from a worker to the server's call for its current attempt. */
  datatype State = State(pool: Client.Pool, server: Server.State, requests: map<nat, nat>)

  datatype Step =
    | Send(w: nat)
    | Progress(w: nat, loaded: nat)
    | Confirm(w: nat)
    | LoseContact(w: nat)
    | Refuse(w: nat)
    | OnServer(step: Server.Step)

  /** Client and server agree on the file's size and the chunk size, and the count fits 32 bits. */
  ghost predicate Agreed(f: Client.File, u: Server.Upload) {
    && Client.ValidFile(f) && f.totalChunks < U32_LIMIT
    && u.totalBytes == |f.data| && u.chunkSize == f.chunkSize && u.totalChunks == f.totalChunks
  }

  function Start(f: Client.File, maxParallel: nat): State {
    State(Client.Start(f, maxParallel), Server.Init(), map[])
  }

  predicate Waits(s: State, w: nat) {
    w in s.requests && w < |s.pool.workers| && s.pool.workers[w].Uploading?
  }

  /** The callback a step causes in the browser. */
  function Events(s: State, step: Step): seq<Client.Event> {
    match step
    case Progress(w, loaded) => if Waits(s, w) then [Client.Progress(w, loaded)] else []
    case Confirm(w) =>
      if Waits(s, w) && s.requests[w] < |s.server.receives| && s.server.receives[s.requests[w]].phase.Answered?
      then [Client.Success(w)] else []
    case LoseContact(w) => if Waits(s, w) then [Client.TransientError(w)] else []
    case Refuse(w) => if Waits(s, w) then [Client.PermanentError(w)] else []
    case _ => []
  }

  /** What a step does on the server: nobody but the pool's workers sends chunks. */
  function ServerSteps(f: Client.File, s: State, step: Step): seq<Server.Step> {
    match step
    case Send(w) =>
      if w < |s.pool.workers| && s.pool.workers[w].Uploading? && w !in s.requests
      then [Server.CallReceive(s.pool.workers[w].index, Slice(f.data, f.chunkSize, s.pool.workers[w].index))] else []
    case OnServer(own) => if own.CallReceive? then [] else [own]
    case _ => []
  }

  function Apply(f: Client.File, u: Server.Upload, s: State, step: Step): State {
    var (events, steps) := (Events(s, step), ServerSteps(f, s, step));
    var requests :=
      if step.Send? && steps != [] then s.requests[step.w := |s.server.receives|]
      else if events != [] && !step.Progress? then s.requests - {step.w}
      else s.requests;
    State(Client.Run(f, s.pool, events), Server.Run(u, s.server, steps), requests)
  }

  function Run(f: Client.File, u: Server.Upload, s: State, steps: seq<Step>): State
    decreases |steps|
  {
    if steps == [] then s else Run(f, u, Apply(f, u, s, steps[0]), steps[1..])
  }

  // A joint run is a run of each side.

  function AllEvents(f: Client.File, u: Server.Upload, s: State, steps: seq<Step>): seq<Client.Event>
    decreases |steps|
  {
    if steps == [] then [] else Events(s, steps[0]) + AllEvents(f, u, Apply(f, u, s, steps[0]), steps[1..])
  }

  function AllServerSteps(f: Client.File, u: Server.Upload, s: State, steps: seq<Step>): seq<Server.Step>
    decreases |steps|
  {
    if steps == [] then [] else ServerSteps(f, s, steps[0]) + AllServerSteps(f, u, Apply(f, u, s, steps[0]), steps[1..])
  }

  lemma {:induction false} ClientRunAppend(f: Client.File, s: Client.Pool, first: seq<Client.Event>, second: seq<Client.Event>)
    ensures Client.Run(f, s, first + second) == Client.Run(f, Client.Run(f, s, first), second)
    decreases |first|
  {
    if first == [] {
      assert first + second == second;
    } else {
      assert (first + second)[1..] == first[1..] + second;
      ClientRunAppend(f, Client.React(f, s, first[0]), first[1..], second);
    }
  }

  lemma {:induction false} RunIsBothRuns(f: Client.File, u: Server.Upload, s: State, steps: seq<Step>)
    ensures Run(f, u, s, steps).pool == Client.Run(f, s.pool, AllEvents(f, u, s, steps))
    ensures Run(f, u, s, steps).server == Server.Run(u, s.server, AllServerSteps(f, u, s, steps))
    decreases |steps|
  {
    if steps != [] {
      var t := Apply(f, u, s, steps[0]);
      RunIsBothRuns(f, u, t, steps[1..]);
      ClientRunAppend(f, s.pool, Events(s, steps[0]), AllEvents(f, u, t, steps[1..]));
      Server.RunAppend(u, s.server, ServerSteps(f, s, steps[0]), AllServerSteps(f, u, t, steps[1..]));
    }
  }

  lemma {:induction false} OnlyTheClientSends(f: Client.File, u: Server.Upload, s: State, steps: seq<Step>)
    requires Agreed(f, u)
    ensures EndToEnd.FromClient(u, f.data, AllServerSteps(f, u, s, steps))
    decreases |steps|
  {
    if steps != [] {
      OnlyTheClientSends(f, u, Apply(f, u, s, steps[0]), steps[1..]);
    }
  }

  // What is confirmed in the browser is answered on the server.

  predicate AnsweredFor(receives: seq<Server.Receive>, r: nat, i: nat) {
    r < |receives| && receives[r].index == i && receives[r].phase.Answered?
  }

  ghost predicate Confirmed(receives: seq<Server.Receive>, i: nat) {
    exists r: nat :: AnsweredFor(receives, r, i)
  }

  ghost predicate PutsConfirmed(puts: seq<nat>, receives: seq<Server.Receive>) {
    forall i :: i in puts ==> Confirmed(receives, i)
  }

  predicate RequestsOk(workers: seq<Client.Worker>, receives: seq<Server.Receive>, requests: map<nat, nat>) {
    forall w :: w in requests ==>
      w < |workers| && workers[w].Uploading? && requests[w] < |receives| && receives[requests[w]].index == workers[w].index
  }

  ghost predicate Inv(s: State) {
    PutsConfirmed(s.pool.puts, s.server.receives) && RequestsOk(s.pool.workers, s.server.receives, s.requests)
  }

  /** Calls stay, keep their index, and stay answered. */
  predicate Continues(receives: seq<Server.Receive>, receives': seq<Server.Receive>) {
    && |receives| <= |receives'|
    && forall r :: 0 <= r < |receives| ==>
      receives'[r].index == receives[r].index && (receives[r].phase.Answered? ==> receives'[r].phase.Answered?)
  }

  lemma ServerContinues(u: Server.Upload, s: Server.State, step: Server.Step)
    ensures Continues(s.receives, Server.Apply(u, s, step).receives)
  {
    if step.OnReceive? && step.r < |s.receives| {
      ReceiveContinues(u, s, step.r, step.receiveAction);
    }
  }

  lemma ReceiveContinues(u: Server.Upload, s: Server.State, r: nat, action: Server.ReceiveAction)
    requires r < |s.receives|
    ensures Continues(s.receives, Server.StepReceive(u, s, r, action).receives)
  {
  }

  lemma ContinuesKeeps(s: State, receives: seq<Server.Receive>)
    requires Inv(s) && Continues(s.server.receives, receives)
    ensures PutsConfirmed(s.pool.puts, receives) && RequestsOk(s.pool.workers, receives, s.requests)
  {
    forall i | i in s.pool.puts ensures Confirmed(receives, i) {
      var r: nat :| AnsweredFor(s.server.receives, r, i);
      assert AnsweredFor(receives, r, i);
    }
  }

  lemma OneServerStep(u: Server.Upload, s: Server.State, step: Server.Step)
    ensures Server.Run(u, s, [step]) == Server.Apply(u, s, step)
  {
  }

  lemma OneEvent(f: Client.File, s: Client.Pool, e: Client.Event)
    ensures Client.Run(f, s, [e]) == Client.React(f, s, e)
  {
  }

  lemma ServerStepKeeps(f: Client.File, u: Server.Upload, s: State, step: Step)
    requires Inv(s) && (step.Send? || step.OnServer?)
    ensures Inv(Apply(f, u, s, step))
  {
    var steps := ServerSteps(f, s, step);
    if steps != [] {
      OneServerStep(u, s.server, steps[0]);
      ServerContinues(u, s.server, steps[0]);
      ContinuesKeeps(s, Server.Apply(u, s.server, steps[0]).receives);
    }
  }

  /** A callback moves its own worker only, and confirms at most that worker's index. */
  lemma ReactMoves(f: Client.File, s: Client.Pool, e: Client.Event)
    ensures var t := Client.React(f, s, e);
      && |t.workers| == |s.workers|
      && (forall v :: 0 <= v < |s.workers| && v != e.w ==> t.workers[v] == s.workers[v])
      && (e.Progress? ==> t.workers == s.workers)
      && t.puts == if e.Success? && e.w < |s.workers| && s.workers[e.w].Uploading? then s.puts + [s.workers[e.w].index] else s.puts
  {
  }

  lemma ClientStepKeeps(f: Client.File, u: Server.Upload, s: State, step: Step)
    requires Inv(s) && !step.Send? && !step.OnServer?
    ensures Inv(Apply(f, u, s, step))
  {
    var events := Events(s, step);
    if events != [] {
      OneEvent(f, s.pool, events[0]);
      ReactMoves(f, s.pool, events[0]);
      if step.Confirm? {
        assert AnsweredFor(s.server.receives, s.requests[step.w], s.pool.workers[step.w].index);
      }
    }
  }

  lemma {:induction false} RunKeeps(f: Client.File, u: Server.Upload, s: State, steps: seq<Step>)
    requires Inv(s)
    ensures Inv(Run(f, u, s, steps))
    decreases |steps|
  {
    if steps != [] {
      if steps[0].Send? || steps[0].OnServer? {
        ServerStepKeeps(f, u, s, steps[0]);
      } else {
        ClientStepKeeps(f, u, s, steps[0]);
      }
      RunKeeps(f, u, Apply(f, u, s, steps[0]), steps[1..]);
    }
  }

  lemma {:induction false} NothingConfirmedYet(f: Client.File, pool: Client.Pool, n: nat)
    requires n <= |pool.workers|
    ensures Client.ClaimAll(f, pool, n).puts == pool.puts
  {
    if n > 0 {
      NothingConfirmedYet(f, pool, n - 1);
    }
  }

  lemma StartIsInv(f: Client.File, maxParallel: nat)
    ensures Inv(Start(f, maxParallel))
  {
    NothingConfirmedYet(f, Client.Pool(0, seq(maxParallel, _ => Client.Idle), map[], 0, []), maxParallel);
  }

  // The whole upload.

  /** The pieces a complete of this run stored, as a file on disk, decrypt to the client's file. */
  ghost predicate ReadsBack(a: Aead, h: Hash, key: Bytes, stream: Bytes, data: Bytes, call: Server.Complete) {
    Encrypted.Plaintext(a, h, key, StreamFormat.StreamFile(a, h, key, stream, call.pieces)) == Some(data)
  }

  /** However the two sides, cancels and clean-ups interleave, whatever a complete stores reads back as the client's file. */
  lemma WhateverIsStoredIsTheFile(a: Aead, h: Hash, key: Bytes, stream: Bytes, f: Client.File, u: Server.Upload,
                                  maxParallel: nat, steps: seq<Step>, c: nat)
    requires LawfulAead(a) && LawfulHash(h) && |stream| == StreamFormat.STREAM_NONCE_LEN
    requires Agreed(f, u) && f.chunkSize + TAG_LEN < U32_LIMIT
    ensures var server := Run(f, u, Start(f, maxParallel), steps).server;
      c < |server.completes| && server.completes[c].phase.Stored? ==> ReadsBack(a, h, key, stream, f.data, server.completes[c])
  {
    var s := Start(f, maxParallel);
    RunIsBothRuns(f, u, s, steps);
    OnlyTheClientSends(f, u, s, steps);
    SlicesTile(f.data, f.chunkSize, f.totalChunks);
    EndToEnd.UploadedFileReadsBack(a, h, key, stream, u, f.data, AllServerSteps(f, u, s, steps), c);
  }

  /** When every worker has stopped and nothing was torn down, the server has every chunk, fully written. */
  lemma AllDoneMeansAllThere(f: Client.File, u: Server.Upload, maxParallel: nat, steps: seq<Step>)
    requires Agreed(f, u) && 0 < maxParallel <= f.totalChunks
    ensures var s := Run(f, u, Start(f, maxParallel), steps);
      Client.AllDone(s.pool) && !s.server.torn ==> Server.AllUploaded(u, s.server)
  {
    var start := Start(f, maxParallel);
    var s := Run(f, u, start, steps);
    StartIsInv(f, maxParallel);
    RunKeeps(f, u, start, steps);
    RunIsBothRuns(f, u, start, steps);
    Client.AllDoneMeansUploaded(f, maxParallel, AllEvents(f, u, start, steps));
    Server.RunKeeps(u, Server.Init(), AllServerSteps(f, u, start, steps));
    if Client.AllDone(s.pool) && !s.server.torn {
      forall i: nat | i < u.totalChunks ensures Confirmed(s.server.receives, i) {
        assert i in s.pool.puts;
      }
      ConfirmedIsThere(u, s.server);
    }
  }

  lemma ConfirmedIsThere(u: Server.Upload, s: Server.State)
    requires Server.Inv(u, s) && !s.torn
    requires forall i: nat :: i < u.totalChunks ==> Confirmed(s.receives, i)
    ensures Server.AllUploaded(u, s)
  {
    forall i: nat | i < u.totalChunks
      ensures i in s.staged && s.staged[i] < |s.files| && s.files[s.staged[i]].creator < |s.receives|
        && s.receives[s.files[s.staged[i]].creator].Written()
    {
      assert Confirmed(s.receives, i);
      var r: nat :| AnsweredFor(s.receives, r, i);
      assert Server.ReceiveOk(u, s.files, s.receives[r], r);
      assert Server.FileOk(s.files, s.receives, s.receives[r].file);
      assert Server.CreatedFor(s.files, s.receives, s.receives[r].file, i);
    }
  }

  /**
    When every worker has stopped on a live, undisturbed session, a complete can go through, and what it stores reads back
    as the client's file.
   */
  lemma FinishedUploadReadsBack(a: Aead, h: Hash, key: Bytes, stream: Bytes, f: Client.File, u: Server.Upload,
                                maxParallel: nat, steps: seq<Step>) returns (more: seq<Server.Step>)
    requires LawfulAead(a) && LawfulHash(h) && |stream| == StreamFormat.STREAM_NONCE_LEN
    requires Agreed(f, u) && f.chunkSize + TAG_LEN < U32_LIMIT && 0 < maxParallel <= f.totalChunks
    requires var s := Run(f, u, Start(f, maxParallel), steps);
      Client.AllDone(s.pool) && !s.server.torn && s.server.row.Some? && !Server.Expired(u, s.server)
    ensures var before := Run(f, u, Start(f, maxParallel), steps).server;
      var after := Server.Run(u, before, more);
      && |after.completes| > |before.completes|
      && after.completes[|before.completes|].phase.Stored?
      && ReadsBack(a, h, key, stream, f.data, after.completes[|before.completes|])
  {
    var start := Start(f, maxParallel);
    var own := AllServerSteps(f, u, start, steps);
    RunIsBothRuns(f, u, start, steps);
    OnlyTheClientSends(f, u, start, steps);
    AllDoneMeansAllThere(f, u, maxParallel, steps);
    more := ServerFinishes(a, h, key, stream, f, u, own);
  }

  lemma ServerFinishes(a: Aead, h: Hash, key: Bytes, stream: Bytes, f: Client.File, u: Server.Upload, own: seq<Server.Step>)
    returns (more: seq<Server.Step>)
    requires LawfulAead(a) && LawfulHash(h) && |stream| == StreamFormat.STREAM_NONCE_LEN
    requires Agreed(f, u) && f.chunkSize + TAG_LEN < U32_LIMIT && EndToEnd.FromClient(u, f.data, own)
    requires var s := Server.Run(u, Server.Init(), own); Server.AllUploaded(u, s) && s.row.Some? && !Server.Expired(u, s)
    ensures var before := Server.Run(u, Server.Init(), own);
      var after := Server.Run(u, before, more);
      && |after.completes| > |before.completes|
      && after.completes[|before.completes|].phase.Stored?
      && ReadsBack(a, h, key, stream, f.data, after.completes[|before.completes|])
  {
    SlicesTile(f.data, f.chunkSize, f.totalChunks);
    more := Server.CompleteCanSucceed(u, own);
    Server.RunAppend(u, Server.Init(), own, more);
    assert EndToEnd.FromClient(u, f.data, own + more);
    EndToEnd.UploadedFileReadsBack(a, h, key, stream, u, f.data, own + more, |Server.Run(u, Server.Init(), own).completes|);
  }
}
