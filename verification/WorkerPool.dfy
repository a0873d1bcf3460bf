/**
  The browser's side of a chunked upload: a pool of workers that share one counter. The
  event loop runs one callback at a time; a run is any sequence of callbacks.
 */
module WorkerPool {
  import opened ByteStrings
  import opened ChunkArithmetic

  const CHUNK_MAX_RETRIES := 3

  datatype Worker = Uploading(index: nat, attempt: nat) | Failed(index: nat) | Idle

  /** `puts` lists the indices whose upload was confirmed, in the order of confirmation. */
  datatype Pool = Pool(
    nextChunkIndex: nat,
    workers: seq<Worker>,
    inflightBytes: map<nat, nat>,
    committedBytes: nat,
    puts: seq<nat>)

  /** `TransientError` is a network error or 5xx; `PermanentError` is anything else. */
  datatype Event = Progress(w: nat, loaded: nat) | Success(w: nat) | TransientError(w: nat) | PermanentError(w: nat)

  datatype File = File(data: Bytes, chunkSize: nat, totalChunks: nat)

  ghost predicate ValidFile(f: File) {
    0 < f.chunkSize < |f.data| < U64_LIMIT && f.totalChunks == DivCeil(|f.data|, f.chunkSize)
  }

  /** The worker function: claim the next index, or stop. */
  function Claim(f: File, s: Pool, w: nat): Pool
    requires w < |s.workers|
  {
    if s.nextChunkIndex >= f.totalChunks then s.(workers := s.workers[w := Idle])
    else
      s.(nextChunkIndex := s.nextChunkIndex + 1,
         workers := s.workers[w := Uploading(s.nextChunkIndex, 1)],
         inflightBytes := s.inflightBytes[s.nextChunkIndex := 0])
  }

  /** `maxParallel` workers, each of which has made its first claim. */
  function Start(f: File, maxParallel: nat): Pool {
    ClaimAll(f, Pool(0, seq(maxParallel, _ => Idle), map[], 0, []), maxParallel)
  }

  function ClaimAll(f: File, s: Pool, n: nat): (t: Pool)
    requires n <= |s.workers|
    ensures |t.workers| == |s.workers|
  {
    if n == 0 then s else Claim(f, ClaimAll(f, s, n - 1), n - 1)
  }

  function React(f: File, s: Pool, e: Event): Pool {
    if e.w >= |s.workers| || !s.workers[e.w].Uploading? then s
    else
      var worker := s.workers[e.w];
      match e
      case Progress(_, loaded) => s.(inflightBytes := s.inflightBytes[worker.index := loaded])
      case Success(w) => Claim(f, Confirm(f, s, w), w)
      case TransientError(w) =>
        if worker.attempt < CHUNK_MAX_RETRIES then
          s.(workers := s.workers[w := Uploading(worker.index, worker.attempt + 1)])
        else Fail(s, w)
      case PermanentError(w) => Fail(s, w)
  }

  function Confirm(f: File, s: Pool, w: nat): Pool
    requires w < |s.workers| && s.workers[w].Uploading?
  {
    var i := s.workers[w].index;
    s.(workers := s.workers[w := Idle],
       committedBytes := s.committedBytes + |Slice(f.data, f.chunkSize, i)|,
       inflightBytes := s.inflightBytes - {i},
       puts := s.puts + [i])
  }

  function Fail(s: Pool, w: nat): Pool
    requires w < |s.workers| && s.workers[w].Uploading?
  {
    s.(workers := s.workers[w := Failed(s.workers[w].index)],
       inflightBytes := s.inflightBytes - {s.workers[w].index})
  }

  function Run(f: File, s: Pool, events: seq<Event>): Pool
    decreases |events|
  {
    if events == [] then s else Run(f, React(f, s, events[0]), events[1..])
  }

  /** What makes `Promise.all` resolve, after which complete is requested. */
  predicate AllDone(s: Pool) {
    forall w :: 0 <= w < |s.workers| ==> s.workers[w].Idle?
  }

  // What every callback keeps.

  /** Worker `w` is busy with index `i`, or gave up on it. */
  ghost predicate Holds(workers: seq<Worker>, w: nat, i: nat) {
    w < |workers| && (workers[w].Uploading? || workers[w].Failed?) && workers[w].index == i
  }

  ghost predicate Uploads(workers: seq<Worker>, w: nat, i: nat) {
    Holds(workers, w, i) && workers[w].Uploading? && 1 <= workers[w].attempt <= CHUNK_MAX_RETRIES
  }

  ghost predicate Held(workers: seq<Worker>, i: nat) {
    exists w: nat :: Holds(workers, w, i)
  }

  ghost predicate NoRepeats(xs: seq<nat>) {
    forall i, j :: 0 <= i < j < |xs| ==> xs[i] != xs[j]
  }

  /** The plaintext bytes of the indices below `n` that are not confirmed yet. */
  ghost function Outstanding(f: File, puts: seq<nat>, n: nat): nat {
    if n == 0 then 0
    else Outstanding(f, puts, n - 1) + (if n - 1 in puts then 0 else |Slice(f.data, f.chunkSize, n - 1)|)
  }

  /** Each index below the counter is confirmed or held, never both, and held by one worker. */
  ghost predicate Claims(next: nat, workers: seq<Worker>, puts: seq<nat>) {
    && NoRepeats(puts)
    && (forall i :: i in puts ==> i < next && !Held(workers, i))
    && (forall w: nat, i: nat :: Holds(workers, w, i) ==> i < next)
    && (forall w: nat, v: nat, i: nat :: Holds(workers, w, i) && Holds(workers, v, i) ==> w == v)
    && (forall i: nat :: i < next && i !in puts ==> Held(workers, i))
  }

  /** The progress table has an entry for exactly the indices being uploaded. */
  ghost predicate Inflight(workers: seq<Worker>, inflightBytes: map<nat, nat>) {
    && (forall w: nat :: w < |workers| && workers[w].Uploading? ==>
      Uploads(workers, w, workers[w].index) && workers[w].index in inflightBytes)
    && (forall i :: i in inflightBytes ==> exists w: nat :: Uploads(workers, w, i))
  }

  ghost predicate Inv(f: File, s: Pool) {
    && s.nextChunkIndex <= f.totalChunks
    && Claims(s.nextChunkIndex, s.workers, s.puts)
    && Inflight(s.workers, s.inflightBytes)
    && s.committedBytes + Outstanding(f, s.puts, f.totalChunks) == |f.data|
  }

  /** A worker stops only when nothing is left to claim. */
  ghost predicate IdleMeansExhausted(f: File, s: Pool) {
    forall w :: 0 <= w < |s.workers| && s.workers[w].Idle? ==> s.nextChunkIndex == f.totalChunks
  }

  lemma ClaimKeeps(f: File, s: Pool, w: nat)
    requires Inv(f, s) && w < |s.workers| && s.workers[w].Idle?
    ensures Inv(f, Claim(f, s, w))
  {
    var t := Claim(f, s, w);
    if s.nextChunkIndex < f.totalChunks {
      var i := s.nextChunkIndex;
      assert Holds(t.workers, w, i) && Uploads(t.workers, w, i);
      forall v: nat, j: nat
        ensures v != w ==> (Holds(t.workers, v, j) <==> Holds(s.workers, v, j))
        ensures v != w ==> (Uploads(t.workers, v, j) <==> Uploads(s.workers, v, j))
        ensures !Holds(s.workers, w, j)
      {
      }
      forall j: nat | j != i
        ensures Held(t.workers, j) <==> Held(s.workers, j)
      {
      }
    } else {
      assert t.workers == s.workers;
    }
  }

  lemma {:induction false} ConfirmedOnce(f: File, puts: seq<nat>, i: nat, n: nat)
    requires i !in puts
    ensures Outstanding(f, puts + [i], n) == Outstanding(f, puts, n) - (if i < n then |Slice(f.data, f.chunkSize, i)| else 0)
  {
    if n > 0 {
      ConfirmedOnce(f, puts, i, n - 1);
    }
  }

  /** Whatever worker `w` does with its index, nobody else is affected. */
  lemma OthersKeep(s: Pool, w: nat, worker: Worker)
    requires w < |s.workers|
    ensures forall v: nat, j: nat :: v != w ==>
      && (Holds(s.workers[w := worker], v, j) <==> Holds(s.workers, v, j))
      && (Uploads(s.workers[w := worker], v, j) <==> Uploads(s.workers, v, j))
  {
  }

  /** A worker that lets go of its index frees that index and no other. */
  lemma ReleaseFrees(next: nat, workers: seq<Worker>, puts: seq<nat>, w: nat)
    requires Claims(next, workers, puts) && w < |workers| && workers[w].Uploading?
    ensures var i := workers[w].index;
      i < next && i !in puts && forall j: nat :: Held(workers[w := Idle], j) <==> j != i && Held(workers, j)
  {
    var i, workers' := workers[w].index, workers[w := Idle];
    assert Holds(workers, w, i);
    forall v: nat, j: nat
      ensures Holds(workers', v, j) <==> v != w && Holds(workers, v, j)
    {
    }
    forall j: nat | j != i && Held(workers, j)
      ensures Held(workers', j)
    {
      var v: nat :| Holds(workers, v, j);
      assert Holds(workers', v, j);
    }
  }

  lemma ConfirmKeepsClaims(next: nat, workers: seq<Worker>, puts: seq<nat>, w: nat)
    requires Claims(next, workers, puts) && w < |workers| && workers[w].Uploading?
    ensures Claims(next, workers[w := Idle], puts + [workers[w].index])
  {
    ReleaseFrees(next, workers, puts, w);
    var workers', puts' := workers[w := Idle], puts + [workers[w].index];
    forall v: nat, j: nat | Holds(workers', v, j)
      ensures v != w && Holds(workers, v, j)
    {
    }
    assert NoRepeats(puts');
    forall j | j in puts'
      ensures j < next && !Held(workers', j)
    {
    }
    forall j: nat | j < next && j !in puts'
      ensures Held(workers', j)
    {
      assert j !in puts && j != workers[w].index by {
        assert puts'[|puts|] == workers[w].index;
        assert forall k :: 0 <= k < |puts| ==> puts'[k] == puts[k];
      }
    }
  }

  /** The index a worker lets go of leaves the progress table. */
  lemma ReleaseKeepsInflight(next: nat, workers: seq<Worker>, puts: seq<nat>, inflight: map<nat, nat>, w: nat, worker: Worker)
    requires Claims(next, workers, puts) && Inflight(workers, inflight)
    requires w < |workers| && workers[w].Uploading? && !worker.Uploading?
    ensures Inflight(workers[w := worker], inflight - {workers[w].index})
  {
    var workers', i := workers[w := worker], workers[w].index;
    assert Holds(workers, w, i);
    forall v: nat | v < |workers'| && workers'[v].Uploading?
      ensures Uploads(workers', v, workers'[v].index) && workers'[v].index in inflight && workers'[v].index != i
    {
      assert Uploads(workers, v, workers[v].index);
    }
    forall j | j in inflight - {i}
      ensures exists v: nat :: Uploads(workers', v, j)
    {
      var v: nat :| Uploads(workers, v, j);
      assert Uploads(workers', v, j);
    }
  }

  lemma ConfirmKeeps(f: File, s: Pool, w: nat)
    requires Inv(f, s) && w < |s.workers| && s.workers[w].Uploading?
    ensures Inv(f, Confirm(f, s, w))
  {
    var i := s.workers[w].index;
    ReleaseFrees(s.nextChunkIndex, s.workers, s.puts, w);
    ConfirmKeepsClaims(s.nextChunkIndex, s.workers, s.puts, w);
    ReleaseKeepsInflight(s.nextChunkIndex, s.workers, s.puts, s.inflightBytes, w, Idle);
    ConfirmedOnce(f, s.puts, i, f.totalChunks);
  }

  lemma FailKeeps(f: File, s: Pool, w: nat)
    requires Inv(f, s) && w < |s.workers| && s.workers[w].Uploading?
    ensures Inv(f, Fail(s, w))
  {
    var t := Fail(s, w);
    forall v: nat, j: nat
      ensures Holds(t.workers, v, j) <==> Holds(s.workers, v, j)
    {
    }
    SameHolds(s.workers, t.workers);
    ReleaseKeepsInflight(s.nextChunkIndex, s.workers, s.puts, s.inflightBytes, w, t.workers[w]);
  }

  lemma SameHolds(workers: seq<Worker>, workers': seq<Worker>)
    requires forall v: nat, j: nat :: Holds(workers', v, j) <==> Holds(workers, v, j)
    ensures forall j: nat :: Held(workers', j) <==> Held(workers, j)
  {
  }

  lemma RetryKeeps(f: File, s: Pool, w: nat)
    requires Inv(f, s) && w < |s.workers| && s.workers[w].Uploading? && s.workers[w].attempt < CHUNK_MAX_RETRIES
    ensures Inv(f, s.(workers := s.workers[w := Uploading(s.workers[w].index, s.workers[w].attempt + 1)]))
  {
    var worker := Uploading(s.workers[w].index, s.workers[w].attempt + 1);
    var workers' := s.workers[w := worker];
    OthersKeep(s, w, worker);
    forall v: nat, j: nat
      ensures Holds(workers', v, j) <==> Holds(s.workers, v, j)
      ensures Uploads(s.workers, v, j) ==> Uploads(workers', v, j)
    {
    }
    SameHolds(s.workers, workers');
    forall j | j in s.inflightBytes
      ensures exists v: nat :: Uploads(workers', v, j)
    {
      var v: nat :| Uploads(s.workers, v, j);
      assert Uploads(workers', v, j);
    }
  }

  lemma SuccessKeeps(f: File, s: Pool, w: nat)
    requires Inv(f, s) && IdleMeansExhausted(f, s) && w < |s.workers| && s.workers[w].Uploading?
    ensures var t := Claim(f, Confirm(f, s, w), w);
      Inv(f, t) && IdleMeansExhausted(f, t) && |t.workers| == |s.workers|
  {
    ConfirmKeeps(f, s, w);
    ClaimKeeps(f, Confirm(f, s, w), w);
  }

  lemma ReactKeeps(f: File, s: Pool, e: Event)
    requires Inv(f, s) && IdleMeansExhausted(f, s)
    ensures Inv(f, React(f, s, e)) && IdleMeansExhausted(f, React(f, s, e))
    ensures |React(f, s, e).workers| == |s.workers|
  {
    if e.w < |s.workers| && s.workers[e.w].Uploading? {
      match e
      case Progress(w, _) =>
        assert Uploads(s.workers, w, s.workers[w].index);
      case Success(w) =>
        SuccessKeeps(f, s, w);
      case TransientError(w) =>
        if s.workers[w].attempt < CHUNK_MAX_RETRIES {
          RetryKeeps(f, s, w);
        } else {
          FailKeeps(f, s, w);
        }
      case PermanentError(w) =>
        FailKeeps(f, s, w);
    }
  }

  lemma {:induction false} NothingConfirmed(f: File, n: nat)
    ensures Outstanding(f, [], n) == TotalLength(Slices(f.data, f.chunkSize, n))
  {
    if n > 0 {
      NothingConfirmed(f, n - 1);
      var before, last := Slices(f.data, f.chunkSize, n - 1), Slice(f.data, f.chunkSize, n - 1);
      assert Slices(f.data, f.chunkSize, n) == before + [last];
      ConcatAppend(before, last);
    }
  }

  lemma {:induction false} ClaimAllKeeps(f: File, s: Pool, n: nat)
    requires Inv(f, s) && n <= |s.workers| && n <= f.totalChunks
    requires s.nextChunkIndex == 0 && forall w :: 0 <= w < |s.workers| ==> s.workers[w].Idle?
    ensures var t := ClaimAll(f, s, n);
      && Inv(f, t) && t.nextChunkIndex == n
      && forall w :: 0 <= w < |t.workers| ==> (t.workers[w].Idle? <==> w >= n)
  {
    if n > 0 {
      ClaimAllKeeps(f, s, n - 1);
      ClaimKeeps(f, ClaimAll(f, s, n - 1), n - 1);
    }
  }

  lemma StartKeeps(f: File, maxParallel: nat)
    requires ValidFile(f) && 0 < maxParallel <= f.totalChunks
    ensures Inv(f, Start(f, maxParallel)) && IdleMeansExhausted(f, Start(f, maxParallel))
    ensures |Start(f, maxParallel).workers| == maxParallel
  {
    var s := Pool(0, seq(maxParallel, _ => Idle), map[], 0, []);
    NothingConfirmed(f, f.totalChunks);
    SlicesTile(f.data, f.chunkSize, f.totalChunks);
    ConcatLength(Slices(f.data, f.chunkSize, f.totalChunks));
    assert Inv(f, s);
    ClaimAllKeeps(f, s, maxParallel);
  }

  lemma {:induction false} RunKeeps(f: File, s: Pool, events: seq<Event>)
    requires Inv(f, s) && IdleMeansExhausted(f, s)
    ensures var t := Run(f, s, events); Inv(f, t) && IdleMeansExhausted(f, t) && |t.workers| == |s.workers|
    decreases |events|
  {
    if events != [] {
      ReactKeeps(f, s, events[0]);
      RunKeeps(f, React(f, s, events[0]), events[1..]);
    }
  }

  /** At no time is an index in the hands of two workers, or uploaded again once confirmed. */
  lemma ClaimedByOne(f: File, maxParallel: nat, events: seq<Event>, w: nat, v: nat)
    requires ValidFile(f) && 0 < maxParallel <= f.totalChunks
    ensures var s := Run(f, Start(f, maxParallel), events);
      && NoRepeats(s.puts)
      && (w < |s.workers| && s.workers[w].Uploading? ==> s.workers[w].index !in s.puts && s.workers[w].attempt <= CHUNK_MAX_RETRIES)
      && (w < v < |s.workers| && s.workers[w].Uploading? && s.workers[v].Uploading? ==>
        s.workers[w].index != s.workers[v].index)
  {
    StartKeeps(f, maxParallel);
    RunKeeps(f, Start(f, maxParallel), events);
    var s := Run(f, Start(f, maxParallel), events);
    if w < |s.workers| && s.workers[w].Uploading? {
      assert Holds(s.workers, w, s.workers[w].index) && Uploads(s.workers, w, s.workers[w].index);
      if w < v < |s.workers| && s.workers[v].Uploading? {
        assert Holds(s.workers, v, s.workers[v].index);
      }
    }
  }

  /** At most `maxParallel` uploads are in flight. */
  lemma BoundedParallelism(f: File, maxParallel: nat, events: seq<Event>)
    requires ValidFile(f) && 0 < maxParallel <= f.totalChunks
    ensures |Run(f, Start(f, maxParallel), events).inflightBytes| <= maxParallel
  {
    StartKeeps(f, maxParallel);
    RunKeeps(f, Start(f, maxParallel), events);
    var s := Run(f, Start(f, maxParallel), events);
    forall i | i in s.inflightBytes
      ensures exists w :: 0 <= w < |s.workers| && s.workers[w].Uploading? && s.workers[w].index == i
    {
      var w: nat :| Uploads(s.workers, w, i);
    }
    CoveredByWorkers(s.inflightBytes.Keys, s.workers);
  }

  lemma {:induction false} CoveredByWorkers(indices: set<nat>, workers: seq<Worker>)
    requires forall i :: i in indices ==> exists w :: 0 <= w < |workers| && workers[w].Uploading? && workers[w].index == i
    ensures |indices| <= |workers|
    decreases |workers|
  {
    if workers != [] {
      var last := |workers| - 1;
      var fewer := if workers[last].Uploading? then indices - {workers[last].index} else indices;
      forall i | i in fewer
        ensures exists w :: 0 <= w < last && workers[..last][w].Uploading? && workers[..last][w].index == i
      {
        var w :| 0 <= w < |workers| && workers[w].Uploading? && workers[w].index == i;
        assert w < last && workers[..last][w] == workers[w];
      }
      CoveredByWorkers(fewer, workers[..last]);
      if workers[last].Uploading? && workers[last].index in indices {
        assert indices == fewer + {workers[last].index};
      } else {
        assert indices == fewer;
      }
    } else {
      assert indices == {};
    }
  }

  lemma {:induction false} NothingOutstanding(f: File, puts: seq<nat>, n: nat)
    requires forall i: nat :: i < n ==> i in puts
    ensures Outstanding(f, puts, n) == 0
  {
    if n > 0 {
      NothingOutstanding(f, puts, n - 1);
    }
  }

  /**
    When every worker has stopped, so that complete is requested, each index was uploaded
    exactly once, the committed bytes are the file size, and every piece sent had the
    length the server demands, for the chunk count the server computes.
   */
  lemma AllDoneMeansUploaded(f: File, maxParallel: nat, events: seq<Event>)
    requires ValidFile(f) && 0 < maxParallel <= f.totalChunks
    ensures var s := Run(f, Start(f, maxParallel), events);
      AllDone(s) ==>
        && NoRepeats(s.puts)
        && (forall i: nat :: i in s.puts <==> i < f.totalChunks)
        && s.committedBytes == |f.data|
        && s.inflightBytes == map[]
    ensures Concat(Slices(f.data, f.chunkSize, f.totalChunks)) == f.data
    ensures f.totalChunks < U32_LIMIT ==> f.totalChunks == ExpectedTotalChunks(|f.data|, f.chunkSize)
    ensures forall i :: 0 <= i < f.totalChunks ==>
      |Slice(f.data, f.chunkSize, i)| == ExpectedChunkLen(|f.data|, f.chunkSize, f.totalChunks, i)
  {
    StartKeeps(f, maxParallel);
    RunKeeps(f, Start(f, maxParallel), events);
    SlicesTile(f.data, f.chunkSize, f.totalChunks);
    var s := Run(f, Start(f, maxParallel), events);
    if AllDone(s) {
      assert s.workers[0].Idle?;
      forall i: nat
        ensures !Held(s.workers, i)
      {
      }
      NothingOutstanding(f, s.puts, f.totalChunks);
      assert forall w: nat, i: nat :: !Uploads(s.workers, w, i);
      assert s.inflightBytes.Keys == {};
    }
  }
}
