/** A whole upload goes through: browser and server, left alone, get from an accepted init to a stored file that reads back. */
module JointProgress {
  import opened ByteStrings
  import opened Crypto
  import opened ChunkArithmetic
  import opened JointUpload
  import StreamFormat
  import Client = WorkerPool
  import Server = UploadProtocol
  import UploadProgress
  import PoolProgress
  import UploadRecovery

  /** Nothing is in flight, and the server has staged exactly what the browser saw confirmed. */
  ghost predicate InStep(f: Client.File, maxParallel: nat, s: State, events: seq<Client.Event>) {
    && PoolProgress.AllSucceed(f, Client.Start(f, maxParallel), events)
    && s.pool == Client.Run(f, Client.Start(f, maxParallel), events)
    && s.requests == map[]
    && s.server.row.Some? && s.server.now == 0 && !s.server.torn
    && forall i :: i in s.server.staged <==> i in s.pool.puts
  }

  function OnServerAll(steps: seq<Server.Step>): seq<Step> {
    if steps == [] then [] else [OnServer(steps[0])] + OnServerAll(steps[1..])
  }

  /** Left to itself the server may do whatever is due, but for making up requests; the pool waits. */
  lemma {:induction false} ServerRunsAlone(f: Client.File, u: Server.Upload, s: State, steps: seq<Server.Step>)
    requires forall i :: 0 <= i < |steps| ==> !steps[i].CallReceive?
    ensures Run(f, u, s, OnServerAll(steps)) == s.(server := Server.Run(u, s.server, steps))
    decreases |steps|
  {
    if steps != [] {
      OneServerStep(u, s.server, steps[0]);
      var t := s.(server := Server.Apply(u, s.server, steps[0]));
      assert Apply(f, u, s, OnServer(steps[0])) == t;
      ServerRunsAlone(f, u, t, steps[1..]);
    }
  }

  /** A request on its way can fail either way at any time: retried or given up as the pool does, and no longer waited for. */
  lemma AnyRequestCanFail(f: Client.File, u: Server.Upload, s: State, w: nat)
    requires Waits(s, w)
    ensures Apply(f, u, s, LoseContact(w)) == s.(pool := Client.React(f, s.pool, Client.TransientError(w)), requests := s.requests - {w})
    ensures Apply(f, u, s, Refuse(w)) == s.(pool := Client.React(f, s.pool, Client.PermanentError(w)), requests := s.requests - {w})
  {
    OneEvent(f, s.pool, Client.TransientError(w));
    OneEvent(f, s.pool, Client.PermanentError(w));
  }

  lemma OneEvent(f: Client.File, s: Client.Pool, e: Client.Event)
    ensures Client.Run(f, s, [e]) == Client.React(f, s, e)
  {
  }

  lemma {:induction false} JointRunAppend(f: Client.File, u: Server.Upload, s: State, first: seq<Step>, second: seq<Step>)
    ensures Run(f, u, s, first + second) == Run(f, u, Run(f, u, s, first), second)
    decreases |first|
  {
    if first == [] {
      assert first + second == second;
    } else {
      assert (first + second)[1..] == first[1..] + second;
      JointRunAppend(f, u, Apply(f, u, s, first[0]), first[1..], second);
    }
  }

  lemma {:induction false} OneMoreSucceeds(f: Client.File, s: Client.Pool, events: seq<Client.Event>, e: Client.Event)
    requires PoolProgress.AllSucceed(f, s, events) && PoolProgress.Answers(Client.Run(f, s, events), e)
    ensures PoolProgress.AllSucceed(f, s, events + [e])
    decreases |events|
  {
    if events == [] {
      assert [] + [e] == [e];
    } else {
      assert (events + [e])[1..] == events[1..] + [e];
      OneMoreSucceeds(f, Client.React(f, s, events[0]), events[1..], e);
    }
  }

  function Sent(f: Client.File, s: State, w: nat, index: nat): State {
    s.(server := UploadProgress.Called(s.server, index, Slice(f.data, f.chunkSize, index), Server.Checking, 0),
       requests := map[w := |s.server.receives|])
  }

  lemma SendIsACall(f: Client.File, u: Server.Upload, s: State, w: nat, attempt: nat, index: nat)
    requires s.requests == map[] && w < |s.pool.workers| && s.pool.workers[w] == Client.Uploading(index, attempt)
    ensures Apply(f, u, s, Send(w)) == Sent(f, s, w, index)
  {
    OneServerStep(u, s.server, Server.CallReceive(index, Slice(f.data, f.chunkSize, index)));
  }

  lemma ConfirmIsASuccess(f: Client.File, u: Server.Upload, s: State, w: nat)
    requires w < |s.pool.workers| && s.pool.workers[w].Uploading? && s.requests == map[w := |s.server.receives| - 1]
    requires s.server.receives != [] && s.server.receives[|s.server.receives| - 1].phase.Answered?
    ensures Apply(f, u, s, Confirm(w)) == s.(pool := Client.React(f, s.pool, Client.Success(w)), requests := map[])
  {
    OneEvent(f, s.pool, Client.Success(w));
    assert Events(s, Confirm(w)) == [Client.Success(w)];
    assert s.requests - {w} == map[];
  }

  /** One worker's chunk, from its request to its confirmation. */
  lemma ChunkGoesThrough(f: Client.File, u: Server.Upload, s: State, w: nat, attempt: nat, index: nat) returns (steps: seq<Step>)
    requires s.requests == map[] && w < |s.pool.workers| && s.pool.workers[w] == Client.Uploading(index, attempt)
    requires UploadProgress.Welcome(u, s.server, index, Slice(f.data, f.chunkSize, index))
    ensures Run(f, u, s, steps) == State(
      Client.React(f, s.pool, Client.Success(w)),
      UploadProgress.AfterPut(s.server, index, Slice(f.data, f.chunkSize, index)), map[])
  {
    var body := Slice(f.data, f.chunkSize, index);
    var put := UploadProgress.WelcomePutIsAnswered(u, s.server, index, body);
    var sent := Sent(f, s, w, index);
    SendIsACall(f, u, s, w, attempt, index);
    ServerRunsAlone(f, u, sent, put[1..]);
    assert Server.Apply(u, s.server, put[0]) == sent.server;
    var answered := sent.(server := UploadProgress.AfterPut(s.server, index, body));
    ConfirmIsASuccess(f, u, answered, w);
    steps := [Send(w)] + (OnServerAll(put[1..]) + [Confirm(w)]);
    assert steps[1..] == OnServerAll(put[1..]) + [Confirm(w)];
    JointRunAppend(f, u, sent, OnServerAll(put[1..]), [Confirm(w)]);
    OneStep(f, u, answered, Confirm(w));
  }

  lemma OneStep(f: Client.File, u: Server.Upload, s: State, step: Step)
    ensures Run(f, u, s, [step]) == Apply(f, u, s, step)
  {
  }

  lemma NextWorker(f: Client.File, u: Server.Upload, maxParallel: nat, s: State, events: seq<Client.Event>)
    returns (w: nat)
    requires Agreed(f, u) && 0 < maxParallel <= f.totalChunks && 0 < u.expiresAt
    requires InStep(f, maxParallel, s, events) && |events| < f.totalChunks
    ensures w < |s.pool.workers| && s.pool.workers[w].Uploading?
    ensures var index := s.pool.workers[w].index;
      UploadProgress.Welcome(u, s.server, index, Slice(f.data, f.chunkSize, index))
  {
    PoolProgress.SuccessesFinish(f, maxParallel, events);
    w :| 0 <= w < |s.pool.workers| && s.pool.workers[w].Uploading?;
    Client.StartKeeps(f, maxParallel);
    Client.RunKeeps(f, Client.Start(f, maxParallel), events);
    assert Client.Holds(s.pool.workers, w, s.pool.workers[w].index) && Client.Held(s.pool.workers, s.pool.workers[w].index);
    SlicesTile(f.data, f.chunkSize, f.totalChunks);
  }

  lemma OneMoreChunk(f: Client.File, u: Server.Upload, maxParallel: nat, s: State, events: seq<Client.Event>)
    returns (steps: seq<Step>, e: Client.Event)
    requires Agreed(f, u) && 0 < maxParallel <= f.totalChunks && 0 < u.expiresAt
    requires InStep(f, maxParallel, s, events) && |events| < f.totalChunks
    ensures InStep(f, maxParallel, Run(f, u, s, steps), events + [e])
  {
    var w := NextWorker(f, u, maxParallel, s, events);
    e := Client.Success(w);
    steps := ChunkGoesThrough(f, u, s, w, s.pool.workers[w].attempt, s.pool.workers[w].index);
    OneMoreSucceeds(f, Client.Start(f, maxParallel), events, e);
    ClientRunAppend(f, Client.Start(f, maxParallel), events, [e]);
    OneEvent(f, s.pool, e);
    ReactMoves(f, s.pool, e);
  }

  lemma {:induction false} ChunksGoThrough(f: Client.File, u: Server.Upload, maxParallel: nat, n: nat)
    returns (steps: seq<Step>, events: seq<Client.Event>)
    requires Agreed(f, u) && 0 < maxParallel <= f.totalChunks && 0 < u.expiresAt && n <= f.totalChunks
    ensures InStep(f, maxParallel, Run(f, u, Start(f, maxParallel), steps), events) && |events| == n
  {
    if n == 0 {
      steps, events := [], [];
      PoolProgress.StartHasNone(f, Client.Pool(0, seq(maxParallel, _ => Client.Idle), map[], 0, []), maxParallel);
    } else {
      var before, done := ChunksGoThrough(f, u, maxParallel, n - 1);
      var more, e := OneMoreChunk(f, u, maxParallel, Run(f, u, Start(f, maxParallel), before), done);
      JointRunAppend(f, u, Start(f, maxParallel), before, more);
      steps, events := before + more, done + [e];
    }
  }

  /**
    From the start of any session that init accepted, with any number of workers, browser and server can bring every chunk
    across until all workers have stopped, and a complete then stores a file that decrypts to what the browser was given.
   */
  lemma UploadGoesThrough(a: Aead, h: Hash, key: Bytes, stream: Bytes, f: Client.File, u: Server.Upload, maxParallel: nat)
    returns (steps: seq<Step>, more: seq<Server.Step>)
    requires LawfulAead(a) && LawfulHash(h) && |stream| == StreamFormat.STREAM_NONCE_LEN
    requires Agreed(f, u) && f.chunkSize + TAG_LEN < U32_LIMIT && 0 < maxParallel <= f.totalChunks && 0 < u.expiresAt
    ensures Client.AllDone(Run(f, u, Start(f, maxParallel), steps).pool)
    ensures var before := Run(f, u, Start(f, maxParallel), steps).server;
      var after := Server.Run(u, before, more);
      && |after.completes| > |before.completes|
      && after.completes[|before.completes|].phase.Stored?
      && ReadsBack(a, h, key, stream, f.data, after.completes[|before.completes|])
  {
    var events;
    steps, events := ChunksGoThrough(f, u, maxParallel, f.totalChunks);
    PoolProgress.SuccessesFinish(f, maxParallel, events);
    more := FinishedUploadReadsBack(a, h, key, stream, f, u, maxParallel, steps);
  }

  /**
    Retrying does not help a chunk whose PUT died on the server: as long as nothing is unlinked the pool never finishes, so
    it never asks for the complete, which would fail.
   */
  lemma DeadChunkStopsThePool(f: Client.File, u: Server.Upload, maxParallel: nat, steps: seq<Step>, more: seq<Step>, i: nat)
    requires Agreed(f, u) && 0 < maxParallel <= f.totalChunks
    requires UploadRecovery.Dead(Run(f, u, Start(f, maxParallel), steps).server, i)
    ensures var t := Run(f, u, Start(f, maxParallel), steps + more);
      !t.server.torn ==> !Client.AllDone(t.pool) && forall c :: 0 <= c < |t.server.completes| ==> !t.server.completes[c].phase.Stored?
  {
    var first, second := SplitServerRun(f, u, Start(f, maxParallel), steps, more);
    var t := Run(f, u, Start(f, maxParallel), steps + more);
    UploadRecovery.DeadPutBlocks(u, first, second, i);
    AllDoneMeansAllThere(f, u, maxParallel, steps + more);
    if !t.server.torn {
      InRange(u, first + second, i);
    }
  }

  lemma SplitServerRun(f: Client.File, u: Server.Upload, s: State, steps: seq<Step>, more: seq<Step>)
    returns (first: seq<Server.Step>, second: seq<Server.Step>)
    ensures Run(f, u, s, steps).server == Server.Run(u, s.server, first)
    ensures Run(f, u, s, steps + more).server == Server.Run(u, s.server, first + second)
  {
    first := AllServerSteps(f, u, s, steps);
    second := AllServerSteps(f, u, Run(f, u, s, steps), more);
    RunIsBothRuns(f, u, s, steps);
    RunIsBothRuns(f, u, Run(f, u, s, steps), more);
    JointRunAppend(f, u, s, steps, more);
    Server.RunAppend(u, s.server, first, second);
  }

  lemma InRange(u: Server.Upload, steps: seq<Server.Step>, i: nat)
    requires i in Server.Run(u, Server.Init(), steps).staged
    ensures i < u.totalChunks
  {
    Server.ProgressNeverOverstated(u, steps);
  }
}
