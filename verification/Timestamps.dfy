/** Timestamps as text: listing times and the expiry columns that SQL compares as strings. */
module Timestamps {
  import opened Decimal
  import opened Calendar

  /** A zero-padded number and the characters that follow it. */
  datatype Field = Field(value: nat, width: nat, mark: string)

  function Render(fields: seq<Field>): string {
    if fields == [] then "" else Padded(fields[0].value, fields[0].width) + fields[0].mark + Render(fields[1..])
  }

  /** Same layout, and every number fits its field. */
  predicate Alike(f: seq<Field>, g: seq<Field>) {
    && |f| == |g|
    && forall i :: 0 <= i < |f| ==>
         && f[i].width == g[i].width >= 1 && f[i].mark == g[i].mark
         && f[i].value < Pow10(f[i].width) && g[i].value < Pow10(f[i].width)
  }

  /** The first field that differs is smaller. */
  predicate Less(f: seq<Field>, g: seq<Field>)
    requires |f| == |g|
  {
    f != [] && (f[0].value < g[0].value || (f[0].value == g[0].value && Less(f[1..], g[1..])))
  }

  /** Fixed-width texts compare as their numbers do, field by field. */
  lemma {:induction false} RenderOrder(f: seq<Field>, g: seq<Field>)
    requires Alike(f, g)
    ensures |Render(f)| == |Render(g)|
    ensures Before(Render(f), Render(g)) <==> Less(f, g)
    ensures Render(f) == Render(g) ==> f == g
  {
    if f != [] {
      RenderOrder(f[1..], g[1..]);
      HeadFieldOrder(f[0], g[0], Render(f[1..]), Render(g[1..]));
      assert f == [f[0]] + f[1..] && g == [g[0]] + g[1..];
    }
  }

  lemma HeadFieldOrder(x: Field, y: Field, s: string, t: string)
    requires x.width == y.width >= 1 && x.mark == y.mark && x.value < Pow10(x.width) && y.value < Pow10(x.width) && |s| == |t|
    ensures var (a, b) := (Padded(x.value, x.width) + x.mark + s, Padded(y.value, y.width) + y.mark + t);
      && |a| == |b|
      && (Before(a, b) <==> x.value < y.value || (x.value == y.value && Before(s, t)))
      && (a == b ==> x == y && s == t)
  {
    PaddedOrder(x.value, y.value, x.width);
    HeadOrder(Padded(x.value, x.width), Padded(y.value, y.width), x.mark, s, t);
    if Padded(x.value, x.width) == Padded(y.value, y.width) {
      PaddedInjective(x.value, y.value, x.width);
    }
  }

  lemma HeadOrder(p: string, q: string, mark: string, s: string, t: string)
    requires |p| == |q| && |s| == |t|
    ensures Before(p + mark + s, q + mark + t) <==> Before(p, q) || (p == q && Before(s, t))
    ensures p + mark + s == q + mark + t ==> p == q && s == t
  {
    assert p + mark + s == p + (mark + s) && q + mark + t == q + (mark + t);
    BeforeAppend(p, q, mark + s, mark + t);
    BeforeAppend(mark, mark, s, t);
    BeforeIrreflexive(mark);
    var x, y := p + mark + s, q + mark + t;
    assert x[..|p|] == p && y[..|p|] == q;
    assert x[|p| + |mark|..] == s && y[|p| + |mark|..] == t;
  }

  lemma {:induction false} BeforeIrreflexive(s: string)
    ensures !Before(s, s)
  {
    if s != [] {
      BeforeIrreflexive(s[1..]);
    }
  }

  lemma {:induction false} BeforeIsTotal(s: string, t: string)
    ensures Before(s, t) || Before(t, s) || s == t
    ensures !(Before(s, t) && Before(t, s))
  {
    if s != [] && t != [] {
      BeforeIsTotal(s[1..], t[1..]);
      assert s == [s[0]] + s[1..] && t == [t[0]] + t[1..];
    }
  }

  // A second, as a date and a time of day.

  datatype Civil = Civil(date: Date, hour: nat, minute: nat, second: nat)

  predicate ValidCivil(c: Civil) {
    ValidDate(c.date) && c.date.year >= 1970 && c.hour < 24 && c.minute < 60 && c.second < 60
  }

  /** Seconds from the epoch to a date and time. */
  function Seconds(c: Civil): nat
    requires ValidCivil(c)
  {
    86400 * DayNumber(c.date) + 3600 * c.hour + 60 * c.minute + c.second
  }

  function CivilOf(secs: nat): Civil {
    var timeOfDay := secs % 86400;
    Civil(DaysToYmd(secs / 86400), timeOfDay / 3600, timeOfDay % 3600 / 60, timeOfDay % 60)
  }

  lemma TimeOfDay(secs: nat)
    ensures var t := secs % 86400;
      && t / 3600 < 24 && t % 3600 / 60 < 60 && t % 60 < 60
      && secs == 86400 * (secs / 86400) + 3600 * (t / 3600) + 60 * (t % 3600 / 60) + t % 60
  {
  }

  lemma CivilOfSeconds(secs: nat)
    ensures ValidCivil(CivilOf(secs)) && Seconds(CivilOf(secs)) == secs
  {
    TimeOfDay(secs);
    CountsBack(secs / 86400);
  }

  lemma SplitSeconds(n: nat, h: nat, m: nat, s: nat, secs: nat)
    requires h < 24 && m < 60 && s < 60 && secs == 86400 * n + 3600 * h + 60 * m + s
    ensures secs / 86400 == n && secs % 86400 == 3600 * h + 60 * m + s
    ensures (3600 * h + 60 * m + s) / 3600 == h && (3600 * h + 60 * m + s) % 3600 == 60 * m + s
    ensures (60 * m + s) / 60 == m && (3600 * h + 60 * m + s) % 60 == s
  {
  }

  lemma SecondsOfCivil(c: Civil)
    requires ValidCivil(c)
    ensures CivilOf(Seconds(c)) == c
  {
    SplitSeconds(DayNumber(c.date), c.hour, c.minute, c.second, Seconds(c));
    StrictlyIncreasingAndOnto(0, 0, c.date);
  }

  // Listing times: "2024-01-15T12:30:45Z".

  function DayFields(c: Civil, between: string, last: string): seq<Field> {
    [Field(c.date.month, 2, "-"), Field(c.date.day, 2, between),
     Field(c.hour, 2, ":"), Field(c.minute, 2, ":"), Field(c.second, 2, last)]
  }

  function CivilText(c: Civil): string {
    Padded(c.date.year, 4) + "-" + Render(DayFields(c, "T", "Z"))
  }

  /** `format_system_time`, for a time `secs` after the epoch; an earlier time is shown as the epoch. */
  function FormatSystemTime(secs: nat): string {
    CivilText(CivilOf(secs))
  }

  lemma DayFieldsFit(c: Civil, e: Civil, between: string, last: string)
    requires ValidCivil(c) && ValidCivil(e)
    ensures Alike(DayFields(c, between, last), DayFields(e, between, last))
  {
  }

  lemma CivilTextInjective(c: Civil, e: Civil)
    requires ValidCivil(c) && ValidCivil(e) && CivilText(c) == CivilText(e)
    ensures c == e
  {
    var f, g := DayFields(c, "T", "Z"), DayFields(e, "T", "Z");
    DayFieldsFit(c, e, "T", "Z");
    RenderOrder(f, g);
    SameEnd(Padded(c.date.year, 4) + "-", Padded(e.date.year, 4) + "-", Render(f), Render(g));
    SameEnd(Padded(c.date.year, 4), Padded(e.date.year, 4), "-", "-");
    PaddedInjective(c.date.year, e.date.year, 4);
    assert f[0] == g[0] && f[1] == g[1] && f[2] == g[2] && f[3] == g[3] && f[4] == g[4];
  }

  lemma SameEnd(p: string, q: string, s: string, t: string)
    requires p + s == q + t && |s| == |t|
    ensures p == q && s == t
  {
    var whole := p + s;
    assert |p| == |q|;
    assert p == whole[..|p|] && q == (q + t)[..|q|];
    assert s == whole[|p|..] && t == (q + t)[|q|..];
  }

  /** A listing time reads as a date and time exactly when that is the second it was made from. */
  lemma NamesExactlyTheSecond(secs: nat, c: Civil)
    requires ValidCivil(c)
    ensures FormatSystemTime(secs) == CivilText(c) <==> Seconds(c) == secs
  {
    CivilOfSeconds(secs);
    SecondsOfCivil(c);
    if FormatSystemTime(secs) == CivilText(c) {
      CivilTextInjective(CivilOf(secs), c);
    }
  }

  // Expiry columns: "%Y-%m-%d %H:%M:%S".

  function YearFields(c: Civil, width: nat): seq<Field> {
    [Field(c.date.year, width, "-")] + DayFields(c, " ", "")
  }

  /** `format("%Y-%m-%d %H:%M:%S")`: a year past 9999 is printed with a plus sign. */
  function Stamp(secs: nat): (text: string) {
    var c := CivilOf(secs);
    if c.date.year <= 9999 then Render(YearFields(c, 4))
    else "+" + Padded(c.date.year, 4) + "-" + Render(DayFields(c, " ", ""))
  }

  /** The first second of the year 10000. */
  const YEAR_10000 := 253_402_300_800

  /** The times an expiry column can hold in order. */
  predicate FourDigitYear(secs: nat) {
    secs < YEAR_10000
  }

  lemma LastFourDigitDay()
    ensures DaysToYmd(2932896) == Date(9999, 12, 31)
  {
    SplitDays(2932896, 24, 146036);
    FromEraIsFromYear(24, 146036, 399);
  }

  lemma FirstFiveDigitDay()
    ensures DaysToYmd(2932897) == Date(10000, 1, 1)
  {
    SplitDays(2932897, 24, 146037);
    FromEraIsFromYear(24, 146037, 399);
  }

  lemma FourDigitDays(n: nat, d: Date)
    requires d == DaysToYmd(n)
    ensures n < 2932897 <==> d.year <= 9999
  {
    LastFourDigitDay();
    FirstFiveDigitDay();
    DayBefore(2932896, n, Date(9999, 12, 31), d);
    DayBefore(n, 2932897, d, Date(10000, 1, 1));
  }

  lemma FourDigitYears(secs: nat)
    ensures FourDigitYear(secs) <==> CivilOf(secs).date.year <= 9999
  {
    FourDigitDays(secs / 86400, DaysToYmd(secs / 86400));
  }

  lemma FieldOrder(c: Civil, e: Civil, width: nat)
    requires ValidCivil(c) && ValidCivil(e)
    ensures Less(YearFields(c, width), YearFields(e, width)) <==>
      Earlier(c.date, e.date) || (c.date == e.date && (c.hour < e.hour || (c.hour == e.hour
        && (c.minute < e.minute || (c.minute == e.minute && c.second < e.second)))))
  {
    var f, g := YearFields(c, width), YearFields(e, width);
    LessAt(f, g);
    LessAt(f[1..], g[1..]);
    LessAt(f[2..], g[2..]);
    LessAt(f[3..], g[3..]);
    LessAt(f[4..], g[4..]);
    LessAt(f[5..], g[5..]);
  }

  lemma LessAt(f: seq<Field>, g: seq<Field>)
    requires |f| == |g|
    ensures f == [] ==> !Less(f, g)
    ensures f != [] ==> (Less(f, g) <==> f[0].value < g[0].value || (f[0].value == g[0].value && Less(f[1..], g[1..])))
    ensures forall k {:trigger f[k..]} :: 1 <= k < |f| ==> f[k..][1..] == f[k + 1..] && g[k..][1..] == g[k + 1..]
  {
  }

  lemma SecondsGrow(c: Civil, e: Civil)
    requires ValidCivil(c) && ValidCivil(e)
    requires Earlier(c.date, e.date) || (c.date == e.date && (c.hour < e.hour || (c.hour == e.hour
      && (c.minute < e.minute || (c.minute == e.minute && c.second < e.second)))))
    ensures Seconds(c) < Seconds(e)
  {
    if Earlier(c.date, e.date) {
      DayNumberGrows(c.date, e.date);
    }
  }

  /** The places a year is printed in. */
  function YearWidth(secs: nat): (w: nat)
    ensures w >= 4
  {
    |Padded(CivilOf(secs).date.year, 4)|
  }

  /** Texts of years printed in equally many places are ordered, byte by byte, as the times they name. */
  lemma StampOrderInWidth(s: nat, t: nat)
    requires FourDigitYear(s) <==> FourDigitYear(t)
    requires YearWidth(s) == YearWidth(t)
    ensures Before(Stamp(s), Stamp(t)) <==> s < t
  {
    StampInWidth(s);
    StampInWidth(t);
    FieldsInOrder(s, t, YearWidth(s));
    SignOrder(if FourDigitYear(s) then "" else "+", YearText(s), YearText(t));
  }

  /** An expiry text without its sign. */
  function YearText(secs: nat): string {
    Render(YearFields(CivilOf(secs), YearWidth(secs)))
  }

  lemma SignOrder(sign: string, f: string, g: string)
    ensures Before(sign + f, sign + g) <==> Before(f, g)
    ensures sign + f == sign + g ==> f == g
  {
    BeforeAppend(sign, sign, f, g);
    BeforeIrreflexive(sign);
    assert (sign + f)[|sign|..] == f && (sign + g)[|sign|..] == g;
  }

  lemma StampInWidth(secs: nat)
    ensures Stamp(secs) == (if FourDigitYear(secs) then "" else "+") + YearText(secs)
    ensures CivilOf(secs).date.year < Pow10(YearWidth(secs))
  {
    var c := CivilOf(secs);
    FourDigitYears(secs);
    PaddedToItsWidth(c.date.year, 4);
    var (fields, rest) := (YearFields(c, YearWidth(secs)), DayFields(c, " ", ""));
    assert fields[1..] == rest;
    if FourDigitYear(secs) {
      PaddedWidth(c.date.year, 4);
      assert Pow10(4) == 100 * Pow10(2) && Pow10(2) == 100;
      assert "" + Render(fields) == Render(fields);
    } else {
      assert "+" + (Padded(c.date.year, 4) + "-" + Render(rest)) == "+" + Padded(c.date.year, 4) + "-" + Render(rest);
    }
  }

  lemma FieldsInOrder(s: nat, t: nat, w: nat)
    requires w >= 4 && CivilOf(s).date.year < Pow10(w) && CivilOf(t).date.year < Pow10(w)
    ensures var (f, g) := (YearFields(CivilOf(s), w), YearFields(CivilOf(t), w));
      (Before(Render(f), Render(g)) <==> s < t) && (Render(f) == Render(g) ==> s == t)
  {
    var c, e := CivilOf(s), CivilOf(t);
    CivilOfSeconds(s);
    CivilOfSeconds(t);
    YearFieldsFit(c, e, w);
    RenderOrder(YearFields(c, w), YearFields(e, w));
    FieldOrder(c, e, w);
    if Less(YearFields(c, w), YearFields(e, w)) {
      SecondsGrow(c, e);
    } else if c != e {
      SecondsGrow(e, c);
    }
    if YearFields(c, w) == YearFields(e, w) {
      FieldsName(c, e, w);
    }
  }

  /** Up to the year 9999 expiry texts are ordered as the times they name. */
  lemma StampOrder(s: nat, t: nat)
    requires FourDigitYear(s) && FourDigitYear(t)
    ensures Before(Stamp(s), Stamp(t)) <==> s < t
    ensures Stamp(s) == Stamp(t) <==> s == t
  {
    FourDigitWidth(s);
    FourDigitWidth(t);
    StampOrderInWidth(s, t);
    if Stamp(s) == Stamp(t) {
      StampInjective(s, t);
    }
  }

  lemma FourDigitWidth(secs: nat)
    requires FourDigitYear(secs)
    ensures YearWidth(secs) == 4
  {
    FourDigitYears(secs);
    PaddedWidth(CivilOf(secs).date.year, 4);
    assert Pow10(4) == 100 * Pow10(2) && Pow10(2) == 100;
  }

  /** An expiry text names one second, whatever its year. */
  lemma StampInjective(s: nat, t: nat)
    requires Stamp(s) == Stamp(t)
    ensures s == t
  {
    SameYearText(s, t);
    YearTextInjective(s, t);
  }

  lemma YearFits(secs: nat)
    ensures CivilOf(secs).date.year < Pow10(YearWidth(secs))
  {
    PaddedToItsWidth(CivilOf(secs).date.year, 4);
  }

  lemma SameWidth(s: nat, t: nat)
    requires YearText(s) == YearText(t)
    ensures YearWidth(s) == YearWidth(t)
  {
    SameTail(s, t);
  }

  lemma YearTextInjective(s: nat, t: nat)
    requires YearText(s) == YearText(t)
    ensures s == t
  {
    SameWidth(s, t);
    YearFits(s);
    YearFits(t);
    FieldsInOrder(s, t, YearWidth(s));
  }

  lemma SameYearText(s: nat, t: nat)
    requires Stamp(s) == Stamp(t)
    ensures YearText(s) == YearText(t)
  {
    StampInWidth(s);
    StampInWidth(t);
    StampSign(s);
    StampSign(t);
    SignOrder(if FourDigitYear(s) then "" else "+", YearText(s), YearText(t));
  }

  lemma StampSign(secs: nat)
    ensures Stamp(secs) != "" && (Stamp(secs)[0] == '+' <==> !FourDigitYear(secs))
  {
    FourDigitYears(secs);
    PaddedDigits(CivilOf(secs).date.year, 4);
    if FourDigitYear(secs) {
      assert Stamp(secs)[0] == Padded(CivilOf(secs).date.year, 4)[0];
    }
  }

  lemma SameTail(s: nat, t: nat)
    ensures |YearText(s)| - YearWidth(s) == |YearText(t)| - YearWidth(t)
  {
    var c, e := CivilOf(s), CivilOf(t);
    CivilOfSeconds(s);
    CivilOfSeconds(t);
    DayFieldsFit(c, e, " ", "");
    RenderOrder(DayFields(c, " ", ""), DayFields(e, " ", ""));
    YearTextLength(s);
    YearTextLength(t);
  }

  lemma YearTextLength(secs: nat)
    ensures |YearText(secs)| == YearWidth(secs) + 1 + |Render(DayFields(CivilOf(secs), " ", ""))|
  {
    PaddedToItsWidth(CivilOf(secs).date.year, 4);
    assert YearFields(CivilOf(secs), YearWidth(secs))[1..] == DayFields(CivilOf(secs), " ", "");
  }

  lemma FieldsName(c: Civil, e: Civil, width: nat)
    requires YearFields(c, width) == YearFields(e, width)
    ensures c == e
  {
    var f, g := YearFields(c, width), YearFields(e, width);
    assert f[0] == g[0] && f[1] == g[1] && f[2] == g[2] && f[3] == g[3] && f[4] == g[4] && f[5] == g[5];
  }

  lemma YearFieldsFit(c: Civil, e: Civil, width: nat)
    requires ValidCivil(c) && ValidCivil(e) && width >= 1 && c.date.year < Pow10(width) && e.date.year < Pow10(width)
    ensures Alike(YearFields(c, width), YearFields(e, width))
  {
    DayFieldsFit(c, e, " ", "");
  }

  /** A later year sorts before all of them. */
  lemma LateStampSortsFirst(s: nat, t: nat)
    requires FourDigitYear(s) && !FourDigitYear(t)
    ensures s < t && Before(Stamp(t), Stamp(s))
  {
    CivilOfSeconds(s);
    FourDigitYears(s);
    FourDigitYears(t);
    assert Stamp(t)[0] == '+';
    PaddedDigits(CivilOf(s).date.year, 4);
    assert Stamp(s)[0] == Padded(CivilOf(s).date.year, 4)[0];
  }

  lemma {:induction false} PaddedDigits(n: nat, width: nat)
    ensures forall i :: 0 <= i < |Padded(n, width)| ==> '0' <= Padded(n, width)[i] <= '9'
    decreases n, width
  {
    if !(n < 10 && width <= 1) {
      PaddedDigits(n / 10, if width == 0 then 0 else width - 1);
    }
  }

  /** While the clock shows a four-digit year, comparing texts tells whether `t` has come exactly when `t` has one too. */
  lemma ComparableIffFourDigits(now: nat, t: nat)
    requires FourDigitYear(now)
    ensures (!Before(Stamp(now), Stamp(t)) <==> t <= now) <==> FourDigitYear(t)
  {
    if FourDigitYear(t) {
      StampOrder(now, t);
    } else {
      LateStampSortsFirst(now, t);
      BeforeIsTotal(Stamp(now), Stamp(t));
    }
  }

  // The layout of both texts.

  /** Two places of decimal digits at `at` that stand for `n`. */
  predicate TwoDigits(text: string, at: nat, n: nat) {
    at + 2 <= |text| && '0' <= text[at] <= '9' && '0' <= text[at + 1] <= '9'
    && n == 10 * (text[at] - '0') as nat + (text[at + 1] - '0') as nat
  }

  /** `month-day`, `between`, `hour:minute:second`. */
  predicate Clockwork(rest: string, c: Civil, between: char) {
    && |rest| >= 14
    && TwoDigits(rest, 0, c.date.month) && rest[2] == '-' && TwoDigits(rest, 3, c.date.day) && rest[5] == between
    && TwoDigits(rest, 6, c.hour) && rest[8] == ':' && TwoDigits(rest, 9, c.minute) && rest[11] == ':'
    && TwoDigits(rest, 12, c.second)
  }

  lemma PaddedTwo(n: nat)
    requires n < 100
    ensures |Padded(n, 2)| == 2 && TwoDigits(Padded(n, 2), 0, n)
  {
    assert Padded(n, 2) == Padded(n / 10, 1) + [DigitChar(n % 10)];
    assert Padded(n / 10, 1) == [DigitChar(n / 10)];
  }

  /** Five two-digit numbers with marks between them, and an end. */
  function Five(v: seq<nat>, between: char, last: string): string
    requires |v| == 5
  {
    Padded(v[0], 2) + "-" + (Padded(v[1], 2) + [between] + (Padded(v[2], 2) + ":" + (Padded(v[3], 2) + ":" + (Padded(v[4], 2) + last))))
  }

  lemma FiveLayout(v: seq<nat>, between: char, last: string)
    requires |v| == 5 && forall i :: 0 <= i < 5 ==> v[i] < 100
    ensures var text := Five(v, between, last);
      && |text| == 14 + |last| && text[14..] == last
      && text[2] == '-' && text[5] == between && text[8] == ':' && text[11] == ':'
      && text[0..2] == Padded(v[0], 2) && text[3..5] == Padded(v[1], 2) && text[6..8] == Padded(v[2], 2)
      && text[9..11] == Padded(v[3], 2) && text[12..14] == Padded(v[4], 2)
  {
    PaddedTwo(v[0]);
    PaddedTwo(v[1]);
    PaddedTwo(v[2]);
    PaddedTwo(v[3]);
    PaddedTwo(v[4]);
  }

  lemma DigitsAt(text: string, at: nat, n: nat)
    requires n < 100 && at + 2 <= |text| && text[at..at + 2] == Padded(n, 2)
    ensures TwoDigits(text, at, n)
  {
    PaddedTwo(n);
    assert text[at] == Padded(n, 2)[0] && text[at + 1] == Padded(n, 2)[1];
  }

  lemma DayFieldsAreFive(c: Civil, between: char, last: string)
    ensures Render(DayFields(c, [between], last)) == Five([c.date.month, c.date.day, c.hour, c.minute, c.second], between, last)
  {
    var f := DayFields(c, [between], last);
    assert Padded(c.second, 2) + last + "" == Padded(c.second, 2) + last;
    RenderFive(f);
  }

  lemma RenderFive(f: seq<Field>)
    requires |f| == 5
    ensures Render(f) == Padded(f[0].value, f[0].width) + f[0].mark + (Padded(f[1].value, f[1].width) + f[1].mark
      + (Padded(f[2].value, f[2].width) + f[2].mark + (Padded(f[3].value, f[3].width) + f[3].mark
      + (Padded(f[4].value, f[4].width) + f[4].mark + ""))))
  {
    RenderHead(f, 0);
    RenderHead(f, 1);
    RenderHead(f, 2);
    RenderHead(f, 3);
    RenderHead(f, 4);
    assert f[0..] == f && f[5..] == [];
  }

  lemma RenderHead(f: seq<Field>, i: nat)
    requires i < |f|
    ensures Render(f[i..]) == Padded(f[i].value, f[i].width) + f[i].mark + Render(f[i + 1..])
  {
    assert f[i..][1..] == f[i + 1..];
  }

  lemma FiveAreClockwork(text: string, c: Civil, between: char, last: string)
    requires ValidCivil(c) && text == Five([c.date.month, c.date.day, c.hour, c.minute, c.second], between, last)
    ensures Clockwork(text, c, between) && |text| == 14 + |last| && text[14..] == last
  {
    FiveLayout([c.date.month, c.date.day, c.hour, c.minute, c.second], between, last);
    DigitsAt(text, 0, c.date.month);
    DigitsAt(text, 3, c.date.day);
    DigitsAt(text, 6, c.hour);
    DigitsAt(text, 9, c.minute);
    DigitsAt(text, 12, c.second);
  }

  lemma DayFieldsLayout(c: Civil, between: char, last: string)
    requires ValidCivil(c)
    ensures var text := Render(DayFields(c, [between], last));
      Clockwork(text, c, between) && |text| == 14 + |last| && text[14..] == last
  {
    DayFieldsAreFive(c, between, last);
    FiveAreClockwork(Render(DayFields(c, [between], last)), c, between, last);
  }

  lemma YearThenRest(year: string, rest: string, text: string)
    requires text == year + "-" + rest
    ensures |text| == |year| + 1 + |rest| && text[..|year|] == year && text[|year|] == '-' && text[|year| + 1..] == rest
    ensures forall i :: 0 <= i < |year| ==> text[i] == year[i]
  {
  }

  /** The year in `y` digits, then `-MM-DD`, `between`, `hh:mm:ss` and `last`. */
  predicate Spelled(text: string, y: nat, c: Civil, between: char, last: string) {
    && |text| == y + 15 + |last|
    && (forall i :: 0 <= i < y ==> '0' <= text[i] <= '9') && ValueOf(text[..y]) == c.date.year
    && text[y] == '-' && Clockwork(text[y + 1..], c, between) && text[y + 15..] == last
  }

  lemma YearAndRest(c: Civil, year: string, rest: string, between: char, last: string)
    requires (forall i :: 0 <= i < |year| ==> '0' <= year[i] <= '9') && ValueOf(year) == c.date.year
    requires Clockwork(rest, c, between) && |rest| == 14 + |last| && rest[14..] == last
    ensures Spelled(year + "-" + rest, |year|, c, between, last)
  {
    var text := year + "-" + rest;
    YearThenRest(year, rest, text);
    assert text[|year| + 15..] == rest[14..];
  }

  lemma CivilIsSpelled(c: Civil, between: char, last: string)
    requires ValidCivil(c)
    ensures var year := Padded(c.date.year, 4); Spelled(year + "-" + Render(DayFields(c, [between], last)), |year|, c, between, last)
  {
    PaddedReads(c.date.year, 4);
    DayFieldsLayout(c, between, last);
    YearAndRest(c, Padded(c.date.year, 4), Render(DayFields(c, [between], last)), between, last);
  }

  /** A listing time is the year in at least four places, then `-MM-DDThh:mm:ssZ`, of the very second. */
  lemma ListingTimeLayout(secs: nat)
    ensures var text := FormatSystemTime(secs);
      |text| >= 20 && Spelled(text, |text| - 16, CivilOf(secs), 'T', "Z")
  {
    CivilOfSeconds(secs);
    CivilIsSpelled(CivilOf(secs), 'T', "Z");
  }

  lemma StampSpelled(secs: nat)
    requires FourDigitYear(secs)
    ensures Stamp(secs) == Padded(CivilOf(secs).date.year, 4) + "-" + Render(DayFields(CivilOf(secs), " ", ""))
    ensures |Padded(CivilOf(secs).date.year, 4)| == 4
  {
    var c := CivilOf(secs);
    FourDigitWidth(secs);
    StampInWidth(secs);
    assert YearFields(c, 4)[1..] == DayFields(c, " ", "");
    assert "" + YearText(secs) == YearText(secs);
  }

  /** An expiry text is the year in four places, then `-MM-DD hh:mm:ss`, of the very second. */
  lemma StampLayout(secs: nat)
    requires FourDigitYear(secs)
    ensures |Stamp(secs)| == 19 && Spelled(Stamp(secs), 4, CivilOf(secs), ' ', "")
  {
    CivilOfSeconds(secs);
    StampSpelled(secs);
    CivilIsSpelled(CivilOf(secs), ' ', "");
  }
}
