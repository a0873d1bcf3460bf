/**
  Sessions over whole runs: expiring rows in bulk cannot be observed. Presenting a token is two statements, a look-up and,
  for an expired row, a deletion by id; any other operation may come between them.
 */
module SessionRuns {
  import opened ByteStrings
  import opened Timestamps
  import opened Sessions

  /** The rows, and the ids of rows seen expired whose deletion is still to come. */
  datatype Table = Table(rows: Rows, doomed: set<nat>)

  datatype Step =
    | Create(id: nat, user: string, token: string, expiresAt: string)
    | Present(token: string)
    | Purge(id: nat)
    | Logout(user: string, token: string)
    | DeleteExpired
    | Tick(elapsed: nat)

  /** The two tests of an expiry text, and where a run may take them. */
  datatype Tests = Tests(expired: (string, nat) -> bool, listed: (string, nat) -> bool, text: string -> bool, clock: nat -> bool)

  /** On the texts and clock readings of the run the tests agree, and what has expired stays expired. */
  ghost predicate Lawful(t: Tests) {
    && (forall text, now :: t.text(text) && t.clock(now) ==> t.listed(text, now) == t.expired(text, now))
    && (forall text, now, later :: t.expired(text, now) && now <= later ==> t.expired(text, later))
  }

  function Apply(t: Tests, table: Table, now: nat, step: Step): Table {
    var rows := table.rows;
    match step
    case Create(id, user, token, expiresAt) =>
      if Taken(rows, id, token) then table else table.(rows := rows[id := Session(user, token, expiresAt)])
    case Present(token) =>
      table.(doomed := table.doomed + set i | i in rows && rows[i].token == token && t.expired(rows[i].expiresAt, now))
    case Purge(id) => if id in table.doomed then Table(rows - {id}, table.doomed - {id}) else table
    case Logout(user, token) => table.(rows := LoggedOut(rows, user, token))
    case DeleteExpired => table.(rows := map i | i in rows && !t.listed(rows[i].expiresAt, now) :: rows[i])
    case Tick(_) => table
  }

  function After(now: nat, step: Step): nat {
    if step.Tick? then now + step.elapsed else now
  }

  function Admitted(t: Tests, rows: Rows, now: nat, token: string): set<nat> {
    set i | i in rows && rows[i].token == token && !t.expired(rows[i].expiresAt, now)
  }

  /** The sessions admitted each time a token is presented. */
  function Answers(t: Tests, table: Table, now: nat, steps: seq<Step>): seq<set<nat>>
    decreases |steps|
  {
    if steps == [] then []
    else
      (if steps[0].Present? then [Admitted(t, table.rows, now, steps[0].token)] else [])
      + Answers(t, Apply(t, table, now, steps[0]), After(now, steps[0]), steps[1..])
  }

  /** Ids and tokens handed out so far. */
  datatype Issued = Issued(ids: set<nat>, tokens: set<string>)
  {
    function With(step: Step): Issued {
      if step.Create? then Issued(ids + {step.id}, tokens + {step.token}) else this
    }

    predicate Allows(t: Tests, now: nat, step: Step) {
      t.clock(now) && (step.Create? ==> step.id !in ids && step.token !in tokens && t.text(step.expiresAt))
    }

    /** Rows and doomed ids were handed out, and what is doomed has expired. */
    predicate Covers(t: Tests, table: Table, now: nat) {
      && (forall i :: i in table.rows ==> i in ids && table.rows[i].token in tokens && t.text(table.rows[i].expiresAt))
      && (forall i :: i in table.doomed ==> i in ids && (i in table.rows ==> t.expired(table.rows[i].expiresAt, now)))
    }
  }

  /** The run keeps to the clock readings and texts of `t`, and every new session has a new id and token. */
  predicate Fresh(t: Tests, steps: seq<Step>, now: nat, issued: Issued)
    decreases |steps|
  {
    steps != [] ==> issued.Allows(t, now, steps[0]) && Fresh(t, steps[1..], After(now, steps[0]), issued.With(steps[0]))
  }

  predicate LiveAt(t: Tests, rows: Rows, now: nat, i: nat) {
    i in rows && !t.expired(rows[i].expiresAt, now)
  }

  ghost predicate SameLive(t: Tests, a: Rows, b: Rows, now: nat) {
    forall i: nat {:trigger LiveAt(t, a, now, i)} {:trigger LiveAt(t, b, now, i)} ::
      LiveAt(t, a, now, i) || LiveAt(t, b, now, i) ==> i in a && i in b && a[i] == b[i]
  }

  /** What a step other than a creation does to the live rows it does to all alike. */
  lemma ApplyToLive(t: Tests, a: Table, b: Table, now: nat, step: Step, issued: Issued)
    requires Lawful(t) && issued.Covers(t, a, now) && issued.Covers(t, b, now) && issued.Allows(t, now, step)
    requires SameLive(t, a.rows, b.rows, now)
    ensures SameLive(t, Apply(t, a, now, step).rows, Apply(t, b, now, step).rows, now)
  {
    var (a', b') := (Apply(t, a, now, step).rows, Apply(t, b, now, step).rows);
    forall i: nat | LiveAt(t, a', now, i) || LiveAt(t, b', now, i)
      ensures i in a' && i in b' && a'[i] == b'[i]
    {
      assert !(step.Create? && step.id == i) ==> LiveAt(t, a.rows, now, i) || LiveAt(t, b.rows, now, i);
    }
  }

  lemma ApplyIsCovered(t: Tests, table: Table, now: nat, step: Step, issued: Issued)
    requires Lawful(t) && issued.Covers(t, table, now) && issued.Allows(t, now, step)
    ensures issued.With(step).Covers(t, Apply(t, table, now, step), After(now, step))
  {
  }

  lemma LiveLater(t: Tests, a: Rows, b: Rows, now: nat, later: nat)
    requires Lawful(t) && now <= later && SameLive(t, a, b, now)
    ensures SameLive(t, a, b, later)
  {
    forall i: nat | LiveAt(t, a, later, i) || LiveAt(t, b, later, i)
      ensures i in a && i in b && a[i] == b[i]
    {
      assert LiveAt(t, a, now, i) || LiveAt(t, b, now, i);
    }
  }

  lemma SameAdmitted(t: Tests, a: Rows, b: Rows, now: nat, token: string)
    requires SameLive(t, a, b, now)
    ensures Admitted(t, a, now, token) == Admitted(t, b, now, token)
  {
    forall i: nat ensures i in Admitted(t, a, now, token) <==> i in Admitted(t, b, now, token) {
      assert LiveAt(t, a, now, i) || LiveAt(t, b, now, i) ==> i in a && i in b && a[i] == b[i];
    }
  }

  /** Runs that start with the same live sessions answer alike, step by step. */
  lemma {:induction false} SameLiveSameAnswers(t: Tests, a: Table, b: Table, now: nat, steps: seq<Step>, issued: Issued)
    requires Lawful(t) && issued.Covers(t, a, now) && issued.Covers(t, b, now)
    requires Fresh(t, steps, now, issued) && SameLive(t, a.rows, b.rows, now)
    ensures Answers(t, a, now, steps) == Answers(t, b, now, steps)
    decreases |steps|
  {
    if steps != [] {
      var step, later := steps[0], After(now, steps[0]);
      var a', b' := Apply(t, a, now, step), Apply(t, b, now, step);
      ApplyToLive(t, a, b, now, step, issued);
      LiveLater(t, a'.rows, b'.rows, now, later);
      ApplyIsCovered(t, a, now, step, issued);
      ApplyIsCovered(t, b, now, step, issued);
      SameLiveSameAnswers(t, a', b', later, steps[1..], issued.With(step));
      if step.Present? {
        SameAdmitted(t, a.rows, b.rows, now, step.token);
      }
    }
  }

  function WithoutBulk(steps: seq<Step>): seq<Step> {
    if steps == [] then []
    else if steps[0].DeleteExpired? then WithoutBulk(steps[1..])
    else [steps[0]] + WithoutBulk(steps[1..])
  }

  lemma {:induction false} WithoutBulkIsFresh(t: Tests, steps: seq<Step>, now: nat, issued: Issued)
    requires Fresh(t, steps, now, issued)
    ensures Fresh(t, WithoutBulk(steps), now, issued)
    decreases |steps|
  {
    if steps != [] {
      WithoutBulkIsFresh(t, steps[1..], After(now, steps[0]), issued.With(steps[0]));
      if !steps[0].DeleteExpired? {
        assert ([steps[0]] + WithoutBulk(steps[1..]))[1..] == WithoutBulk(steps[1..]);
      }
    }
  }

  lemma {:induction false} BulkIsInvisible(t: Tests, table: Table, now: nat, steps: seq<Step>, issued: Issued)
    requires Lawful(t) && issued.Covers(t, table, now) && Fresh(t, steps, now, issued)
    ensures Answers(t, table, now, steps) == Answers(t, table, now, WithoutBulk(steps))
    decreases |steps|
  {
    if steps != [] {
      var step, rest := steps[0], steps[1..];
      var table', later := Apply(t, table, now, step), After(now, step);
      ApplyIsCovered(t, table, now, step, issued);
      BulkIsInvisible(t, table', later, rest, issued.With(step));
      if step.DeleteExpired? {
        WithoutBulkIsFresh(t, rest, now, issued);
        BulkKeepsLive(t, table, now, issued);
        SameLiveSameAnswers(t, table, table', now, WithoutBulk(rest), issued);
      } else {
        assert ([step] + WithoutBulk(rest))[1..] == WithoutBulk(rest);
      }
    }
  }

  lemma BulkKeepsLive(t: Tests, table: Table, now: nat, issued: Issued)
    requires Lawful(t) && issued.Covers(t, table, now) && t.clock(now)
    ensures SameLive(t, table.rows, Apply(t, table, now, DeleteExpired).rows, now)
  {
  }

  // The tests of the code.

  /** In four-digit years. */
  ghost function CodeTests(parse: Parser): Tests {
    Tests(
      (text: string, now: nat) => Expired(parse, text, now),
      (text: string, now: nat) => ListedExpired(text, now),
      text => WrittenInYears(text),
      (now: nat) => FourDigitYear(now / TICKS))
  }

  lemma CodeTestsAreLawful(parse: Parser)
    requires LawfulParser(parse)
    ensures Lawful(CodeTests(parse))
  {
    var t := CodeTests(parse);
    forall text, now: nat | t.text(text) && t.clock(now) ensures t.listed(text, now) == t.expired(text, now) {
      assert Written(text);
      ListedIffExpired(parse, now, text);
    }
  }

  /** The rows after a look-up of a token and, at once, the deletion of the row it found expired. */
  function PresentedAtOnce(t: Tests, rows: Rows, token: string, now: nat): Rows {
    map i | i in rows && !(rows[i].token == token && t.expired(rows[i].expiresAt, now)) :: rows[i]
  }

  lemma PresentThenPurge(t: Tests, rows: Rows, token: string, now: nat, i: nat)
    requires TokensUnique(rows)
    ensures var looked := Apply(t, Table(rows, {}), now, Present(token));
      && looked.rows == rows
      && (looked.doomed == {} ==> PresentedAtOnce(t, rows, token, now) == rows)
      && (i in looked.doomed ==> Apply(t, looked, now, Purge(i)) == Table(PresentedAtOnce(t, rows, token, now), {}))
  {
    var looked := Apply(t, Table(rows, {}), now, Present(token));
    assert forall j: nat :: j in looked.doomed <==> j in rows && rows[j].token == token && t.expired(rows[j].expiresAt, now);
    if i in looked.doomed {
      assert looked.doomed == {i};
    }
  }

  /** The steps are the methods of `SessionTable`: presenting a token is the look-up and, at once, the deletion. */
  lemma StepsAreTheMethods(parse: Parser, rows: Rows, now: nat, user: string, token: string)
    ensures var t := CodeTests(parse);
      && PresentedAtOnce(t, rows, token, now) == Presented(parse, rows, token, now)
      && Apply(t, Table(rows, {}), now, DeleteExpired).rows == Unlisted(rows, now)
      && Apply(t, Table(rows, {}), now, Logout(user, token)).rows == LoggedOut(rows, user, token)
      && forall id: nat, expiresAt :: Apply(t, Table(rows, {}), now, Create(id, user, token, expiresAt)).rows ==
           if id in rows || (exists i :: i in rows && rows[i].token == token) then rows else rows[id := Session(user, token, expiresAt)]
    ensures forall i: nat :: i in Admitted(CodeTests(parse), rows, now, token) <==> Admits(parse, rows, token, now, i)
  {
    var t := CodeTests(parse);
    forall text: string ensures t.expired(text, now) == Expired(parse, text, now) && t.listed(text, now) == ListedExpired(text, now) {}
  }

  /** Dropping every bulk expiry from a run changes no answer: which sessions a presented token admits. */
  lemma BulkExpiryIsInvisible(parse: Parser, table: Table, now: nat, steps: seq<Step>, issued: Issued)
    requires LawfulParser(parse) && issued.Covers(CodeTests(parse), table, now) && Fresh(CodeTests(parse), steps, now, issued)
    ensures Answers(CodeTests(parse), table, now, steps) == Answers(CodeTests(parse), table, now, WithoutBulk(steps))
  {
    CodeTestsAreLawful(parse);
    BulkIsInvisible(CodeTests(parse), table, now, steps, issued);
  }

  lemma AdmitsTheNewOne(t: Tests, rows: Rows, now: nat, id: nat, session: Session)
    requires !Taken(rows, id, session.token)
    ensures Admitted(t, rows[id := session], now, session.token) == if t.expired(session.expiresAt, now) then {} else {id}
  {
  }

  lemma LifeOfASession(t: Tests, table: Table, now: nat, id: nat, session: Session, elapsed: nat)
    requires !Taken(table.rows, id, session.token)
    ensures Answers(t, table, now, [Create(id, session.user, session.token, session.expiresAt), Tick(elapsed), Present(session.token)])
      == [if t.expired(session.expiresAt, now + elapsed) then {} else {id}]
  {
    var life := [Create(id, session.user, session.token, session.expiresAt), Tick(elapsed), Present(session.token)];
    var made := table.(rows := table.rows[id := session]);
    assert life[1..] == [Tick(elapsed), Present(session.token)] && life[1..][1..] == [Present(session.token)];
    assert Answers(t, made, now + elapsed, [Present(session.token)]) == [Admitted(t, made.rows, now + elapsed, session.token)];
    assert Answers(t, made, now, life[1..]) == [Admitted(t, made.rows, now + elapsed, session.token)];
    AdmitsTheNewOne(t, table.rows, now + elapsed, id, session);
  }

  /** A session's token admits that session, and it only, up to the instant its text names, and nothing from then on. */
  lemma AdmittedUntilItExpires(parse: Parser, table: Table, now: nat, id: nat, user: string, token: string, secs: nat, elapsed: nat)
    requires LawfulParser(parse) && !Taken(table.rows, id, token)
    ensures Answers(CodeTests(parse), table, now, [Create(id, user, token, Stamp(secs)), Tick(elapsed), Present(token)])
      == [if now + elapsed < secs * TICKS then {id} else {}]
  {
    assert ReadsBack(parse, secs);
    LifeOfASession(CodeTests(parse), table, now, id, Session(user, token, Stamp(secs)), elapsed);
  }
}
