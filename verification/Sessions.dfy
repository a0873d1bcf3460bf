/** Login sessions: expiry when a token is presented, and expiry in bulk. */
module Sessions {
  import opened ByteStrings
  import opened Decimal
  import opened Timestamps

  /** Clock readings are in nanoseconds since the epoch; texts drop the fraction. */
  const TICKS := 1_000_000_000

  datatype Session = Session(user: string, token: string, expiresAt: string)

  type Rows = map<nat, Session>

  /** `parse_from_str` on an expiry text; it is only known to read what `format` writes. */
  type Parser = string -> Option<nat>

  predicate ReadsBack(parse: Parser, secs: nat) {
    parse(Stamp(secs)) == Some(secs)
  }

  ghost predicate LawfulParser(parse: Parser) {
    forall secs: nat :: ReadsBack(parse, secs)
  }

  /** There is such a parser: no two seconds share a text. */
  lemma ParserExists() returns (parse: Parser)
    ensures LawfulParser(parse)
  {
    parse := text => if exists secs: nat :: Stamp(secs) == text then var secs: nat :| Stamp(secs) == text; Some(secs) else None;
    forall secs: nat ensures ReadsBack(parse, secs) {
      forall other: nat | Stamp(other) == Stamp(secs) ensures other == secs {
        StampInjective(other, secs);
      }
    }
  }

  predicate Expired(parse: Parser, expiresAt: string, now: nat) {
    match parse(expiresAt)
    case Some(secs) => now >= secs * TICKS
    case None => true
  }

  /** `delete_expired`'s condition on a row, at clock reading `now`. */
  predicate ListedExpired(expiresAt: string, now: nat) {
    !Before(Stamp(now / TICKS), expiresAt)
  }

  /** Bulk and lazy expiry agree on a row, to the nanosecond, exactly when its expiry has a four-digit year. */
  lemma BulkIsLazy(parse: Parser, secs: nat, now: nat)
    requires LawfulParser(parse) && FourDigitYear(now / TICKS)
    ensures (ListedExpired(Stamp(secs), now) <==> Expired(parse, Stamp(secs), now)) <==> FourDigitYear(secs)
  {
    assert ReadsBack(parse, secs);
    ComparableIffFourDigits(now / TICKS, secs);
    assert now / TICKS >= secs <==> now >= secs * TICKS;
  }

  /** Once the clock shows more digits, bulk expiry never lists a row of a four-digit year, and agrees on years as wide as its own. */
  lemma BulkWithLateClock(parse: Parser, secs: nat, now: nat)
    requires LawfulParser(parse) && !FourDigitYear(now / TICKS)
    ensures FourDigitYear(secs) ==> Expired(parse, Stamp(secs), now) && !ListedExpired(Stamp(secs), now)
    ensures !FourDigitYear(secs) && YearWidth(secs) == YearWidth(now / TICKS) ==>
      (ListedExpired(Stamp(secs), now) <==> Expired(parse, Stamp(secs), now))
  {
    assert ReadsBack(parse, secs);
    assert now / TICKS >= secs <==> now >= secs * TICKS;
    if FourDigitYear(secs) {
      LateStampSortsFirst(secs, now / TICKS);
    } else if YearWidth(secs) == YearWidth(now / TICKS) {
      StampOrderInWidth(now / TICKS, secs);
    }
  }

  /** The clean-up of uploads lists a row one second later than uploads stop accepting pieces, and never sooner. */
  lemma CleanupSparesLiveUploads(parse: Parser, secs: nat, now: nat)
    requires LawfulParser(parse) && FourDigitYear(now / TICKS) && FourDigitYear(secs)
    ensures Before(Stamp(secs), Stamp(now / TICKS)) <==> now >= (secs + 1) * TICKS
    ensures Before(Stamp(secs), Stamp(now / TICKS)) ==> Expired(parse, Stamp(secs), now)
  {
    assert ReadsBack(parse, secs);
    StampOrder(secs, now / TICKS);
    assert secs < now / TICKS <==> now >= (secs + 1) * TICKS;
  }

  /** A four-digit clean-up clock deletes every upload whose expiry year has more digits, live or not. */
  lemma CleanupTakesLateUploads(secs: nat, now: nat)
    requires FourDigitYear(now / TICKS) && !FourDigitYear(secs)
    ensures now < secs * TICKS && Before(Stamp(secs), Stamp(now / TICKS))
  {
    LateStampSortsFirst(now / TICKS, secs);
  }

  // The table.

  predicate TokensUnique(rows: Rows) {
    forall i, j :: i in rows && j in rows && rows[i].token == rows[j].token ==> i == j
  }

  /** An expiry as `create` writes it, and one with a four-digit year. */
  ghost predicate Written(text: string) {
    exists secs: nat :: text == Stamp(secs)
  }

  ghost predicate WrittenInYears(text: string) {
    exists secs: nat :: text == Stamp(secs) && FourDigitYear(secs)
  }

  ghost predicate AllWritten(rows: Rows) {
    forall i :: i in rows ==> Written(rows[i].expiresAt)
  }

  ghost predicate AllInYears(rows: Rows) {
    forall i :: i in rows ==> WrittenInYears(rows[i].expiresAt)
  }

  function Live(parse: Parser, rows: Rows, now: nat): (live: Rows) {
    map i | i in rows && !Expired(parse, rows[i].expiresAt, now) :: rows[i]
  }

  /** What presenting a token yields. */
  predicate Admits(parse: Parser, rows: Rows, token: string, now: nat, i: nat) {
    i in rows && rows[i].token == token && !Expired(parse, rows[i].expiresAt, now)
  }

  predicate Taken(rows: Rows, id: nat, token: string) {
    id in rows || exists i :: i in rows && rows[i].token == token
  }

  /** The rows after a session was presented that turned out expired. */
  function Presented(parse: Parser, rows: Rows, token: string, now: nat): Rows {
    map i | i in rows && !(rows[i].token == token && Expired(parse, rows[i].expiresAt, now)) :: rows[i]
  }

  /** The rows but the one of that user and token. */
  function LoggedOut(rows: Rows, user: string, token: string): Rows {
    map i | i in rows && !(rows[i].user == user && rows[i].token == token) :: rows[i]
  }

  function Unlisted(rows: Rows, now: nat): Rows {
    map i | i in rows && !ListedExpired(rows[i].expiresAt, now) :: rows[i]
  }

  /** The sessions table; `id` and `token` come from a random source, so a caller passes new ones. */
  class SessionTable {
    var rows: Rows
    const parse: Parser

    constructor (parse: Parser)
      ensures rows == map[] && this.parse == parse
    {
      rows := map[];
      this.parse := parse;
    }

    ghost predicate Valid()
      reads this
    {
      TokensUnique(rows) && AllWritten(rows) && LawfulParser(parse)
    }

    method Create(id: nat, user: string, token: string, expiresAt: nat) returns (ok: bool)
      requires Valid()
      modifies this
      ensures Valid()
      ensures ok <==> id !in old(rows) && forall i :: i in old(rows) ==> old(rows)[i].token != token
      ensures rows == if ok then old(rows)[id := Session(user, token, Stamp(expiresAt / TICKS))] else old(rows)
    {
      if Taken(rows, id, token) {
        return false;
      }
      var text := Stamp(expiresAt / TICKS);
      assert Written(text);
      rows := rows[id := Session(user, token, text)];
      ok := true;
    }

    method FindByTokenHash(token: string) returns (found: Option<nat>)
      ensures found.Some? ==> found.value in rows && rows[found.value].token == token
      ensures found.None? ==> forall i :: i in rows ==> rows[i].token != token
    {
      if i :| i in rows && rows[i].token == token {
        found := Some(i);
      } else {
        found := None;
      }
    }

    /** An expired session is deleted when it is presented, and no other row is touched. */
    method Validate(token: string, now: nat) returns (found: Option<nat>)
      requires Valid()
      modifies this
      ensures Valid()
      ensures forall i: nat :: found == Some(i) <==> Admits(parse, old(rows), token, now, i)
      ensures rows == Presented(parse, old(rows), token, now)
    {
      found := FindByTokenHash(token);
      PresentedIs(parse, rows, token, now, found);
      if found.Some? && Expired(parse, rows[found.value].expiresAt, now) {
        rows := rows - {found.value};
        found := None;
      }
    }

    method DeleteByUserAndToken(user: string, token: string)
      requires Valid()
      modifies this
      ensures Valid()
      ensures rows == LoggedOut(old(rows), user, token)
    {
      FewerRowsAreValid(rows, LoggedOut(rows, user, token));
      rows := LoggedOut(rows, user, token);
    }

    /**
      The rows whose text does not come after the clock's go. While the clock shows a four-digit year these are exactly the
      rows a presented token would be refused for, if and only if every expiry has a four-digit year too.
     */
    method DeleteExpired(now: nat) returns (removed: nat)
      requires Valid()
      modifies this
      ensures Valid()
      ensures rows == Unlisted(old(rows), now) && removed == |old(rows)| - |rows|
      ensures FourDigitYear(now / TICKS) ==> (rows == Live(parse, old(rows), now) <==> AllInYears(old(rows)))
    {
      if FourDigitYear(now / TICKS) {
        BulkIsLiveIffInYears(parse, rows, now);
      }
      var kept := Unlisted(rows, now);
      FewerRowsAreValid(rows, kept);
      Smaller(kept, rows);
      removed := |rows| - |kept|;
      rows := kept;
    }
  }

  lemma PresentedIs(parse: Parser, rows: Rows, token: string, now: nat, found: Option<nat>)
    requires TokensUnique(rows)
    requires match found
      case Some(i) => i in rows && rows[i].token == token
      case None => forall i :: i in rows ==> rows[i].token != token
    ensures Presented(parse, rows, token, now) ==
      if found.Some? && Expired(parse, rows[found.value].expiresAt, now) then rows - {found.value} else rows
  {
  }

  lemma FewerRowsAreValid(rows: Rows, kept: Rows)
    requires TokensUnique(rows) && AllWritten(rows)
    requires forall i :: i in kept ==> i in rows && kept[i] == rows[i]
    ensures TokensUnique(kept) && AllWritten(kept) && kept.Keys <= rows.Keys
  {
  }

  lemma Smaller(kept: Rows, rows: Rows)
    requires kept.Keys <= rows.Keys
    ensures |kept| <= |rows|
  {
    var rest := rows.Keys - kept.Keys;
    assert kept.Keys + rest == rows.Keys && kept.Keys !! rest;
    assert |rows.Keys| == |kept.Keys| + |rest|;
  }

  lemma ListedIffExpired(parse: Parser, now: nat, text: string)
    requires LawfulParser(parse) && FourDigitYear(now / TICKS) && Written(text)
    ensures (ListedExpired(text, now) <==> Expired(parse, text, now)) <==> WrittenInYears(text)
    ensures !WrittenInYears(text) ==> ListedExpired(text, now)
  {
    var secs: nat :| text == Stamp(secs);
    BulkIsLazy(parse, secs, now);
    if WrittenInYears(text) {
      var other: nat :| text == Stamp(other) && FourDigitYear(other);
      StampInjective(secs, other);
    } else {
      LateStampSortsFirst(now / TICKS, secs);
      BeforeIsTotal(Stamp(now / TICKS), text);
    }
  }

  /** Two selections of rows are the same if and only if they agree on every row. */
  lemma SameRowsIff(rows: Rows, a: Rows, b: Rows, agree: string -> bool)
    requires forall i :: i in a ==> i in rows && a[i] == rows[i]
    requires forall i :: i in b ==> i in rows && b[i] == rows[i]
    requires forall i :: i in rows ==> ((i in a <==> i in b) <==> agree(rows[i].expiresAt))
    ensures a == b <==> forall i :: i in rows ==> agree(rows[i].expiresAt)
  {
    if a == b {
      forall i | i in rows ensures agree(rows[i].expiresAt) {
        assert i in a <==> i in b;
      }
    }
  }

  /** Bulk expiry keeps exactly the live rows if and only if all expiries have four-digit years. */
  lemma BulkIsLiveIffInYears(parse: Parser, rows: Rows, now: nat)
    requires LawfulParser(parse) && FourDigitYear(now / TICKS) && AllWritten(rows)
    ensures Unlisted(rows, now) == Live(parse, rows, now) <==> AllInYears(rows)
  {
    forall i | i in rows
      ensures (ListedExpired(rows[i].expiresAt, now) <==> Expired(parse, rows[i].expiresAt, now)) <==> WrittenInYears(rows[i].expiresAt)
    {
      ListedIffExpired(parse, now, rows[i].expiresAt);
    }
    SameRowsIff(rows, Unlisted(rows, now), Live(parse, rows, now), text => WrittenInYears(text));
  }

  /** A session written with an expiry is expired from that second on, to the nanosecond; one that cannot be read always is. */
  lemma ExpiredFromItsSecond(parse: Parser, secs: nat, text: string, now: nat)
    requires LawfulParser(parse)
    ensures Expired(parse, Stamp(secs), now) <==> now >= secs * TICKS
    ensures parse(text).None? ==> Expired(parse, text, now)
  {
    assert ReadsBack(parse, secs);
  }

  /** Logging out ends the sessions of that user and token, and every other session validates as before. */
  lemma LogoutEndsThatSessionOnly(parse: Parser, rows: Rows, user: string, token: string, other: string, now: nat, i: nat)
    ensures Admits(parse, LoggedOut(rows, user, token), other, now, i) <==>
      Admits(parse, rows, other, now, i) && !(other == token && rows[i].user == user)
  {
  }
}
