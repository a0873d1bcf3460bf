/** The login and registration rate limiter. Clock readings are in nanoseconds. */
module RateLimit {
  import opened ByteStrings

  const SECOND := 1_000_000_000

  /** Attempts counted since `start`. */
  datatype Entry = Entry(count: nat, start: nat)

  /** The limit a caller passes for a key. */
  datatype Rule = Rule(maxAttempts: nat, window: nat)
  {
    /** How old a window is when the truncated seconds exceed `window`. */
    function Lifetime(): nat {
      (window + 1) * SECOND
    }
  }

  /** The entry a call finds, the entry it leaves and its answer. */
  function Found(entry: Option<Entry>, now: nat): Entry {
    match entry
    case Some(e) => e
    case None => Entry(0, now)
  }

  /** `duration_since` saturates, `as_secs` truncates. */
  predicate Stale(rule: Rule, e: Entry, now: nat) {
    (if now >= e.start then now - e.start else 0) / SECOND > rule.window
  }

  predicate Accepts(rule: Rule, entry: Option<Entry>, now: nat) {
    Stale(rule, Found(entry, now), now) || Found(entry, now).count < rule.maxAttempts
  }

  function Next(rule: Rule, entry: Option<Entry>, now: nat): Entry {
    var e := Found(entry, now);
    if Stale(rule, e, now) then Entry(1, now)
    else if e.count < rule.maxAttempts then e.(count := e.count + 1)
    else e
  }

  function Lookup(attempts: map<string, Entry>, key: string): Option<Entry> {
    if key in attempts then Some(attempts[key]) else None
  }

  class RateLimiter {
    var attempts: map<string, Entry>

    constructor ()
      ensures attempts == map[]
    {
      attempts := map[];
    }

    method Check(key: string, maxAttempts: nat, window: nat, now: nat) returns (ok: bool)
      modifies this
      ensures ok == Accepts(Rule(maxAttempts, window), Lookup(old(attempts), key), now)
      ensures attempts == old(attempts)[key := Next(Rule(maxAttempts, window), Lookup(old(attempts), key), now)]
    {
      if key !in attempts {
        attempts := attempts[key := Entry(0, now)];
      }
      var e := attempts[key];
      var elapsed := if now >= e.start then now - e.start else 0;
      if elapsed / SECOND > window {
        attempts := attempts[key := Entry(1, now)];
        ok := true;
      } else if e.count < maxAttempts {
        attempts := attempts[key := e.(count := e.count + 1)];
        ok := true;
      } else {
        ok := false;
      }
    }
  }

  lemma StaleIsOld(rule: Rule, e: Entry, now: nat)
    requires e.start <= now
    ensures Stale(rule, e, now) <==> now - e.start >= rule.Lifetime()
  {
  }

  // Runs of one key: the clock readings of its calls, oldest first.

  predicate Sorted(times: seq<nat>) {
    forall i, j :: 0 <= i <= j < |times| ==> times[i] <= times[j]
  }

  function EntryAfter(rule: Rule, times: seq<nat>): Option<Entry> {
    if times == [] then None
    else Some(Next(rule, EntryAfter(rule, times[..|times| - 1]), times[|times| - 1]))
  }

  /** The answer to call `i` of the run. */
  predicate Accepted(rule: Rule, times: seq<nat>, i: nat)
    requires i < |times|
  {
    Accepts(rule, EntryAfter(rule, times[..i]), times[i])
  }

  /** Accepted calls made between two instants, both included. */
  function AcceptsBetween(rule: Rule, times: seq<nat>, from: nat, to: nat): (n: nat)
    ensures n <= |times|
  {
    if times == [] then 0
    else
      var last := |times| - 1;
      AcceptsBetween(rule, times[..last], from, to)
      + (if from <= times[last] <= to && Accepted(rule, times, last) then 1 else 0)
  }

  /** The entry counts the accepts since its start, which was one of them, and no more than the limit. */
  lemma {:induction false} EntryCounts(rule: Rule, times: seq<nat>, to: nat)
    requires Sorted(times) && rule.maxAttempts >= 1 && times != [] && times[|times| - 1] <= to
    ensures var e := EntryAfter(rule, times).value;
      && 1 <= e.count <= rule.maxAttempts
      && e.start <= times[|times| - 1]
      && AcceptsBetween(rule, times, e.start, to) >= e.count
  {
    var last := |times| - 1;
    var before := times[..last];
    if before != [] {
      EntryCounts(rule, before, to);
      assert before[last - 1] <= times[last];
    } else {
      assert EntryAfter(rule, before) == None;
    }
  }

  /** A rejected call comes after at least `maxAttempts` accepts less than `window + 1` seconds old. */
  lemma RejectionIsEarned(rule: Rule, times: seq<nat>, i: nat)
    requires Sorted(times) && rule.maxAttempts >= 1 && i < |times| && !Accepted(rule, times, i)
    ensures exists start: nat ::
      && times[i] < start + rule.Lifetime()
      && AcceptsBetween(rule, times[..i], start, times[i]) >= rule.maxAttempts
  {
    var before := times[..i];
    assert before != [];
    EntryCounts(rule, before, times[i]);
    var e := EntryAfter(rule, before).value;
    assert before[i - 1] <= times[i];
    StaleIsOld(rule, e, times[i]);
    assert times[i] < e.start + rule.Lifetime() && AcceptsBetween(rule, before, e.start, times[i]) >= rule.maxAttempts;
  }

  lemma {:induction false} NoneYet(rule: Rule, times: seq<nat>, from: nat, to: nat)
    requires Sorted(times)
    ensures times == [] || times[|times| - 1] < from ==> AcceptsBetween(rule, times, from, to) == 0
  {
    if |times| > 1 {
      assert times[|times| - 2] <= times[|times| - 1];
      NoneYet(rule, times[..|times| - 1], from, to);
    }
  }

  /** What the accepts since `from` can be while less than a lifetime has passed since then. */
  lemma {:induction false} AcceptsSince(rule: Rule, times: seq<nat>, from: nat, to: nat)
    requires Sorted(times) && rule.maxAttempts >= 1 && times != [] && times[|times| - 1] <= to < from + rule.Lifetime()
    ensures var e := EntryAfter(rule, times).value;
      && 1 <= e.count <= rule.maxAttempts && e.start <= times[|times| - 1]
      && AcceptsBetween(rule, times, from, to) <= (if e.start < from then 0 else rule.maxAttempts) + e.count - 1
  {
    var last := |times| - 1;
    var before := times[..last];
    if before == [] {
      assert AcceptsBetween(rule, before, from, to) == 0;
    } else {
      assert before[last - 1] <= times[last];
      AcceptsSince(rule, before, from, to);
      NoneYet(rule, times, from, to);
      StaleIsOld(rule, EntryAfter(rule, before).value, times[last]);
    }
  }

  /** Any span of `window` seconds, even of a nanosecond short of one second more, holds at most twice the limit less one. */
  lemma {:induction false} SpanIsBounded(rule: Rule, times: seq<nat>, from: nat, to: nat)
    requires Sorted(times) && rule.maxAttempts >= 1 && to < from + rule.Lifetime()
    ensures AcceptsBetween(rule, times, from, to) <= 2 * rule.maxAttempts - 1
  {
    if times != [] {
      var last := |times| - 1;
      if times[last] <= to {
        AcceptsSince(rule, times, from, to);
      } else {
        SpanIsBounded(rule, times[..last], from, to);
      }
    }
  }

  // The bound is met: a burst at the end of one window and a burst at the start of the next.

  function Again(times: seq<nat>, at: nat, n: nat): seq<nat>
    decreases n
  {
    if n == 0 then times else Again(times + [at], at, n - 1)
  }

  lemma OneMore(rule: Rule, times: seq<nat>, e: Entry, at: nat, from: nat, to: nat)
    requires times != [] && from <= at <= to && EntryAfter(rule, times) == Some(e)
    requires e.count < rule.maxAttempts && e.start <= at < e.start + rule.Lifetime()
    ensures EntryAfter(rule, times + [at]) == Some(Entry(e.count + 1, e.start))
    ensures AcceptsBetween(rule, times + [at], from, to) == AcceptsBetween(rule, times, from, to) + 1
  {
  }

  lemma OneReset(rule: Rule, times: seq<nat>, e: Entry, at: nat, from: nat, to: nat)
    requires times != [] && from <= at <= to && EntryAfter(rule, times) == Some(e)
    requires e.start + rule.Lifetime() <= at
    ensures EntryAfter(rule, times + [at]) == Some(Entry(1, at))
    ensures AcceptsBetween(rule, times + [at], from, to) == AcceptsBetween(rule, times, from, to) + 1
  {
  }

  lemma {:induction false} BurstAccepted(rule: Rule, times: seq<nat>, e: Entry, at: nat, n: nat, from: nat, to: nat)
    requires times != [] && from <= at <= to && EntryAfter(rule, times) == Some(e)
    requires e.count + n <= rule.maxAttempts && e.start <= at < e.start + rule.Lifetime()
    ensures Again(times, at, n) != []
    ensures EntryAfter(rule, Again(times, at, n)) == Some(Entry(e.count + n, e.start))
    ensures AcceptsBetween(rule, Again(times, at, n), from, to) == AcceptsBetween(rule, times, from, to) + n
    decreases n
  {
    if n > 0 {
      OneMore(rule, times, e, at, from, to);
      BurstAccepted(rule, times + [at], Entry(e.count + 1, e.start), at, n - 1, from, to);
    }
  }

  lemma {:induction false} AgainSorted(times: seq<nat>, at: nat, n: nat)
    requires Sorted(times) && forall i :: 0 <= i < |times| ==> times[i] <= at
    ensures Sorted(Again(times, at, n)) && forall i :: 0 <= i < |Again(times, at, n)| ==> Again(times, at, n)[i] <= at
    decreases n
  {
    if n > 0 {
      AgainSorted(times + [at], at, n - 1);
    }
  }

  function Bursts(rule: Rule): seq<nat>
    requires rule.maxAttempts >= 1
  {
    Again(Again([0], rule.Lifetime() - 1, rule.maxAttempts - 1) + [rule.Lifetime()], rule.Lifetime(), rule.maxAttempts - 1)
  }

  lemma FirstCall(rule: Rule, from: nat, to: nat)
    requires rule.maxAttempts >= 1 && from > 0
    ensures EntryAfter(rule, [0]) == Some(Entry(1, 0)) && AcceptsBetween(rule, [0], from, to) == 0
  {
  }

  /** Twice the limit less one is reached within one nanosecond, so the counters are no sliding window. */
  lemma BoundIsMet(rule: Rule)
    requires rule.maxAttempts >= 1
    ensures Sorted(Bursts(rule))
    ensures AcceptsBetween(rule, Bursts(rule), rule.Lifetime() - 1, rule.Lifetime()) == 2 * rule.maxAttempts - 1
  {
    var to := rule.Lifetime();
    AgainSorted([0], to - 1, rule.maxAttempts - 1);
    AgainSorted(Again([0], to - 1, rule.maxAttempts - 1) + [to], to, rule.maxAttempts - 1);
    FirstCall(rule, to - 1, to);
    TwoBursts(rule, to, rule.maxAttempts);
  }

  lemma TwoBursts(rule: Rule, to: nat, m: nat)
    requires m == rule.maxAttempts >= 1 && to == rule.Lifetime()
    requires EntryAfter(rule, [0]) == Some(Entry(1, 0)) && AcceptsBetween(rule, [0], to - 1, to) == 0
    ensures AcceptsBetween(rule, Again(Again([0], to - 1, m - 1) + [to], to, m - 1), to - 1, to) == 2 * m - 1
  {
    FirstBurst(rule, to, m);
    SecondBurst(rule, Again([0], to - 1, m - 1) + [to], to, m);
  }

  lemma FirstBurst(rule: Rule, to: nat, m: nat)
    requires m == rule.maxAttempts >= 1 && to == rule.Lifetime()
    requires EntryAfter(rule, [0]) == Some(Entry(1, 0)) && AcceptsBetween(rule, [0], to - 1, to) == 0
    ensures var next := Again([0], to - 1, m - 1) + [to];
      EntryAfter(rule, next) == Some(Entry(1, to)) && AcceptsBetween(rule, next, to - 1, to) == m
  {
    BurstAccepted(rule, [0], Entry(1, 0), to - 1, m - 1, to - 1, to);
    OneReset(rule, Again([0], to - 1, m - 1), Entry(m, 0), to, to - 1, to);
  }

  lemma SecondBurst(rule: Rule, next: seq<nat>, to: nat, m: nat)
    requires m == rule.maxAttempts >= 1 && to == rule.Lifetime() && next != []
    requires EntryAfter(rule, next) == Some(Entry(1, to)) && AcceptsBetween(rule, next, to - 1, to) == m
    ensures AcceptsBetween(rule, Again(next, to, m - 1), to - 1, to) == 2 * m - 1
  {
    BurstAccepted(rule, next, Entry(1, to), to, m - 1, to - 1, to);
  }

  /** A sliding window: no span of a lifetime or less holds more accepts than the limit. */
  ghost predicate Slides(rule: Rule) {
    forall times: seq<nat>, from: nat, to: nat ::
      Sorted(times) && to < from + rule.Lifetime() ==> AcceptsBetween(rule, times, from, to) <= rule.maxAttempts
  }

  /** The counters give a sliding window exactly for a limit of one. */
  lemma SlidesIffLimitIsOne(rule: Rule)
    requires rule.maxAttempts >= 1
    ensures Slides(rule) <==> rule.maxAttempts == 1
  {
    BoundIsMet(rule);
    if rule.maxAttempts == 1 {
      forall times: seq<nat>, from: nat, to: nat | Sorted(times) && to < from + rule.Lifetime()
        ensures AcceptsBetween(rule, times, from, to) <= rule.maxAttempts
      {
        SpanIsBounded(rule, times, from, to);
      }
    }
  }

  // Runs over many keys.

  datatype Call = Call(key: string, at: nat)

  /** The table after a run, as `Check` changes it. */
  function TableAfter(rules: string -> Rule, calls: seq<Call>): map<string, Entry> {
    if calls == [] then map[]
    else
      var (before, call) := (TableAfter(rules, calls[..|calls| - 1]), calls[|calls| - 1]);
      before[call.key := Next(rules(call.key), Lookup(before, call.key), call.at)]
  }

  function TimesOf(calls: seq<Call>, key: string): seq<nat> {
    if calls == [] then []
    else
      var (before, call) := (TimesOf(calls[..|calls| - 1], key), calls[|calls| - 1]);
      if call.key == key then before + [call.at] else before
  }

  /** A key's entry, hence every answer it gets, depends on that key's own calls only. */
  lemma {:induction false} OtherKeysIrrelevant(rules: string -> Rule, calls: seq<Call>, key: string)
    ensures Lookup(TableAfter(rules, calls), key) == EntryAfter(rules(key), TimesOf(calls, key))
  {
    if calls != [] {
      OtherKeysIrrelevant(rules, calls[..|calls| - 1], key);
      var before := TimesOf(calls[..|calls| - 1], key);
      var all := before + [calls[|calls| - 1].at];
      assert all[..|all| - 1] == before;
    }
  }
}
