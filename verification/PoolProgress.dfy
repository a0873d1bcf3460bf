/** What the browser's workers get done: retries, giving up, and that a pool whose requests succeed finishes. */
module PoolProgress {
  import opened ByteStrings
  import opened ChunkArithmetic
  import opened WorkerPool

  // Retries.

  /** Two transient failures are forgiven: the third attempt's success confirms the chunk, once. */
  lemma TwoFailuresAreForgiven(f: File, s: Pool, w: nat, i: nat)
    requires w < |s.workers| && s.workers[w] == Uploading(i, 1)
    ensures var tried := Run(f, s, [TransientError(w), TransientError(w)]);
      && tried == s.(workers := s.workers[w := Uploading(i, 3)])
      && React(f, tried, Success(w)).puts == s.puts + [i]
  {
    var once := s.(workers := s.workers[w := Uploading(i, 2)]);
    var twice := s.(workers := s.workers[w := Uploading(i, 3)]);
    assert [TransientError(w), TransientError(w)][1..] == [TransientError(w)];
    assert React(f, s, TransientError(w)) == once;
    assert once.workers[w := Uploading(i, 3)] == twice.workers;
    assert Run(f, once, [TransientError(w)]) == Run(f, React(f, once, TransientError(w)), []);
  }

  /** What a chunk's request reports is what the progress table shows for it, and for no other chunk. */
  lemma ProgressIsShown(f: File, s: Pool, w: nat, loaded: nat)
    requires Inv(f, s) && w < |s.workers| && s.workers[w].Uploading?
    ensures var (i, t) := (s.workers[w].index, React(f, s, Progress(w, loaded)));
      && t.inflightBytes.Keys == s.inflightBytes.Keys && t == s.(inflightBytes := t.inflightBytes)
      && forall j :: j in t.inflightBytes ==> t.inflightBytes[j] == if j == i then loaded else s.inflightBytes[j]
  {
  }

  /** The third transient failure and any permanent one end the worker. */
  lemma GivingUp(f: File, s: Pool, w: nat, i: nat, attempt: nat)
    requires w < |s.workers| && s.workers[w] == Uploading(i, attempt)
    ensures React(f, s, PermanentError(w)).workers[w] == Failed(i)
    ensures attempt >= 3 ==> React(f, s, TransientError(w)).workers[w] == Failed(i)
    ensures attempt < 3 ==> React(f, s, TransientError(w)).workers[w] == Uploading(i, attempt + 1)
  {
  }

  /** And for good: with a worker that gave up, complete is never requested. */
  lemma {:induction false} GivenUpForGood(f: File, s: Pool, w: nat, events: seq<Event>)
    requires w < |s.workers| && s.workers[w].Failed?
    ensures var t := Run(f, s, events);
      |t.workers| == |s.workers| && t.workers[w] == s.workers[w] && !AllDone(t)
    decreases |events|
  {
    if events != [] {
      GivenUpForGood(f, React(f, s, events[0]), w, events[1..]);
    }
  }

  // A pool whose requests succeed.

  predicate Answers(s: Pool, e: Event) {
    e.Success? && e.w < |s.workers| && s.workers[e.w].Uploading?
  }

  /** Every event is a success for a worker that waits for one. */
  predicate AllSucceed(f: File, s: Pool, events: seq<Event>)
    decreases |events|
  {
    events != [] ==> Answers(s, events[0]) && AllSucceed(f, React(f, s, events[0]), events[1..])
  }

  predicate NoneFailed(s: Pool) {
    forall w :: 0 <= w < |s.workers| ==> !s.workers[w].Failed?
  }

  lemma {:induction false} SuccessesCount(f: File, s: Pool, events: seq<Event>)
    requires NoneFailed(s) && AllSucceed(f, s, events)
    ensures var t := Run(f, s, events);
      NoneFailed(t) && |t.puts| == |s.puts| + |events|
    decreases |events|
  {
    if events != [] {
      SuccessesCount(f, React(f, s, events[0]), events[1..]);
    }
  }

  lemma {:induction false} StartHasNone(f: File, s: Pool, n: nat)
    requires n <= |s.workers| && NoneFailed(s)
    ensures NoneFailed(ClaimAll(f, s, n)) && ClaimAll(f, s, n).puts == s.puts
  {
    if n > 0 {
      StartHasNone(f, s, n - 1);
    }
  }

  function Below(n: nat): (numbers: set<nat>)
    ensures |numbers| == n && forall i :: i in numbers <==> 0 <= i < n
  {
    if n == 0 then {} else Below(n - 1) + {n - 1}
  }

  function Members(xs: seq<nat>): (members: set<nat>)
    ensures forall x :: x in members <==> x in xs
  {
    if xs == [] then {} else Members(xs[..|xs| - 1]) + {xs[|xs| - 1]}
  }

  lemma {:induction false} DistinctCount(xs: seq<nat>)
    requires NoRepeats(xs)
    ensures |Members(xs)| == |xs|
  {
    if xs != [] {
      var last := |xs| - 1;
      DistinctCount(xs[..last]);
      assert xs[last] !in Members(xs[..last]);
    }
  }

  /** Different numbers below `n` are at most `n`, and exactly `n` when they are all of them. */
  lemma FullHouse(xs: seq<nat>, n: nat)
    requires NoRepeats(xs) && forall x :: x in xs ==> x < n
    ensures |xs| <= n
    ensures |xs| == n <==> forall i: nat :: i < n ==> i in xs
  {
    DistinctCount(xs);
    var rest := Below(n) - Members(xs);
    assert Below(n) == Members(xs) + rest && Members(xs) !! rest;
    assert |Below(n)| == |Members(xs)| + |rest|;
    if forall i: nat :: i < n ==> i in xs {
      assert rest == {};
    } else {
      var i: nat :| i < n && i !in xs;
      assert i in rest;
    }
  }

  /**
    A pool whose requests all succeed is done after as many successes as there are chunks and not before; until then some
    worker is waiting for one.
   */
  lemma SuccessesFinish(f: File, maxParallel: nat, events: seq<Event>)
    requires ValidFile(f) && 0 < maxParallel <= f.totalChunks
    requires AllSucceed(f, Start(f, maxParallel), events)
    ensures var s := Run(f, Start(f, maxParallel), events);
      && |events| == |s.puts| <= f.totalChunks
      && (AllDone(s) <==> |events| == f.totalChunks)
      && (|events| < f.totalChunks ==> exists w :: 0 <= w < |s.workers| && s.workers[w].Uploading?)
  {
    var s := Run(f, Start(f, maxParallel), events);
    StartHasNone(f, Pool(0, seq(maxParallel, _ => Idle), map[], 0, []), maxParallel);
    SuccessesCount(f, Start(f, maxParallel), events);
    StartKeeps(f, maxParallel);
    RunKeeps(f, Start(f, maxParallel), events);
    FullHouse(s.puts, f.totalChunks);
    if AllDone(s) {
      AllDoneMeansUploaded(f, maxParallel, events);
    }
    if |s.puts| == f.totalChunks {
      NobodyWaits(f, s);
    }
  }

  lemma NobodyWaits(f: File, s: Pool)
    requires Inv(f, s) && NoneFailed(s) && forall i: nat :: i < f.totalChunks ==> i in s.puts
    ensures AllDone(s)
  {
    forall w | 0 <= w < |s.workers| ensures s.workers[w].Idle? {
      assert !s.workers[w].Idle? ==> Holds(s.workers, w, s.workers[w].index) && Held(s.workers, s.workers[w].index);
    }
  }
}
