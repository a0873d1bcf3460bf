/** The day-to-date conversion behind listing timestamps, against the Gregorian calendar. */
module Calendar {

  datatype Date = Date(year: nat, month: nat, day: nat)

  // The calendar: month lengths and leap years of RFC 3339 (section 5.7, Appendix C).

  predicate IsLeap(year: nat) {
    year % 4 == 0 && (year % 100 != 0 || year % 400 == 0)
  }

  function DaysInMonth(year: nat, month: nat): (n: nat)
    requires 1 <= month <= 12
    ensures 28 <= n <= 31
  {
    if month == 2 then (if IsLeap(year) then 29 else 28)
    else if month == 4 || month == 6 || month == 9 || month == 11 then 30
    else 31
  }

  predicate ValidDate(d: Date) {
    1 <= d.month <= 12 && 1 <= d.day <= DaysInMonth(d.year, d.month)
  }

  /** The next day of the calendar. */
  function NextDay(d: Date): Date
    requires ValidDate(d)
  {
    if d.day < DaysInMonth(d.year, d.month) then d.(day := d.day + 1)
    else if d.month < 12 then Date(d.year, d.month + 1, 1)
    else Date(d.year + 1, 1, 1)
  }

  // The conversion. Years start in March; an era is 400 years or 146097 days.

  /** Days before year `y` of an era. */
  function YearStart(y: nat): nat {
    365 * y + y / 4 - y / 100 + y / 400
  }

  function YearOfEra(doe: nat): (y: int)
  {
    (doe - doe / 1460 + doe / 36524 - doe / 146096) / 365
  }

  /** `days_to_ymd`, for a day number that `days as i64 + 719468` does not overflow on. */
  function DaysToYmd(days: nat): Date {
    var z := days + 719468;
    var era := z / 146097;
    var doe := z - era * 146097;
    FromEra(era, doe)
  }

  function FromEra(era: nat, doe: nat): Date
    requires doe < 146097
  {
    var yoe := YearOfEra(doe);
    YearOfEraIsRight(doe);
    var y := yoe + era * 400;
    var doy := doe - (365 * yoe + yoe / 4 - yoe / 100);
    var mp := (5 * doy + 2) / 153;
    var d := doy - (153 * mp + 2) / 5 + 1;
    var m := if mp < 10 then mp + 3 else mp - 9;
    Date(if m <= 2 then y + 1 else y, m, d)
  }

  /** Century, four-year cycle, year and day of a day of the era. */
  lemma SplitEra(doe: nat) returns (c: nat, q: nat, r: nat, t: nat)
    requires doe < 146097
    ensures doe == 36524 * c + 1461 * q + 365 * r + t
    ensures c <= 3 && q <= 24 && r <= 3 && t <= 365
    ensures t == 365 ==> r == 3 && (q == 24 ==> c == 3)
  {
    c := if doe < 146096 then doe / 36524 else 3;
    var ofCentury := doe - 36524 * c;
    q := ofCentury / 1461;
    var ofCycle := ofCentury - 1461 * q;
    r := if ofCycle < 1460 then ofCycle / 365 else 3;
    t := ofCycle - 365 * r;
  }

  lemma Quotients(c: nat, q: nat, r: nat, t: nat, doe: nat)
    requires doe == 36524 * c + 1461 * q + 365 * r + t
    requires c <= 3 && q <= 24 && r <= 3 && t <= 365
    requires t == 365 ==> r == 3 && (q == 24 ==> c == 3)
    ensures doe / 1460 == 25 * c + q + (if 24 * c + q + 365 * r + t < 1460 then 0 else 1)
    ensures doe / 36524 == c + doe / 146096
    ensures doe / 146096 == if doe < 146096 then 0 else 1
  {
  }

  /** The division formula finds the year whose days contain the given one. */
  lemma YearOfEraIsRight(doe: nat)
    requires doe < 146097
    ensures var y := YearOfEra(doe); 0 <= y < 400 && YearStart(y) <= doe < YearStart(y + 1)
  {
    var c, q, r, t := SplitEra(doe);
    Quotients(c, q, r, t, doe);
    var y := 100 * c + 4 * q + r;
    var f := if 24 * c + q + 365 * r + t < 1460 then 0 else 1;
    assert doe - doe / 1460 + doe / 36524 - doe / 146096 == 365 * y + (t - f);
    assert YearOfEra(doe) == y;
    YearHasDay(c, q, r, t);
  }

  lemma YearHasDay(c: nat, q: nat, r: nat, t: nat)
    requires c <= 3 && q <= 24 && r <= 3 && t <= 365
    requires t == 365 ==> r == 3 && (q == 24 ==> c == 3)
    ensures var y := 100 * c + 4 * q + r;
      YearStart(y) <= 36524 * c + 1461 * q + 365 * r + t < YearStart(y + 1)
  {
    YearStartOf(c, q, r);
    if r < 3 {
      YearStartOf(c, q, r + 1);
    } else if q < 24 {
      YearStartOf(c, q + 1, 0);
    } else if c < 3 {
      YearStartOf(c + 1, 0, 0);
    }
  }

  lemma YearStartOf(c: nat, q: nat, r: nat)
    requires c <= 3 && q <= 24 && r <= 3
    ensures YearStart(100 * c + 4 * q + r) == 36524 * c + 1461 * q + 365 * r
  {
    var y := 100 * c + 4 * q + r;
    assert y / 4 == 25 * c + q && y / 100 == c && y / 400 == 0;
  }

  /** Leap years repeat every era. */
  lemma LeapRepeats(era: nat, n: nat)
    ensures IsLeap(era * 400 + n) == IsLeap(n)
  {
    SameRestOf4(100 * era, n);
    SameRestOf100(4 * era, n);
    SameRestOf400(era, n);
  }

  lemma SameRestOf4(p: nat, n: nat)
    ensures (4 * p + n) % 4 == n % 4
  {
  }

  lemma SameRestOf100(p: nat, n: nat)
    ensures (100 * p + n) % 100 == n % 100
  {
  }

  lemma SameRestOf400(p: nat, n: nat)
    ensures (400 * p + n) % 400 == n % 400
  {
  }

  /** A year of the era has a 366th day exactly when the February that ends it is a leap one. */
  lemma YearLength(era: nat, y: nat)
    requires y < 400
    ensures YearStart(y + 1) - YearStart(y) == if IsLeap(era * 400 + y + 1) then 366 else 365
  {
    var n := y + 1;
    LeapRepeats(era, n);
    assert n / 4 == y / 4 + (if n % 4 == 0 then 1 else 0);
    assert n / 100 == y / 100 + (if n % 100 == 0 then 1 else 0);
    assert n / 400 == (if n == 400 then 1 else 0);
  }

  lemma {:induction false} YearStartGrows(x: nat, y: nat)
    requires x <= y <= 400
    ensures YearStart(x) <= YearStart(y)
  {
    if x < y {
      YearStartGrows(x, y - 1);
      YearLength(0, y - 1);
    }
  }

  /** The day lies in one year only. */
  lemma YearIsUnique(doe: nat, y: nat)
    requires doe < 146097 && y < 400 && YearStart(y) <= doe < YearStart(y + 1)
    ensures YearOfEra(doe) == y
  {
    YearOfEraIsRight(doe);
    var x := YearOfEra(doe);
    if x < y {
      YearStartGrows(x + 1, y);
    }
  }

  /** Days of the March-based year before its `mp`th month. */
  function MonthStart(mp: nat): nat {
    (153 * mp + 2) / 5
  }

  lemma MonthIsRight(doy: nat)
    requires doy <= 365
    ensures var mp := (5 * doy + 2) / 153; mp <= 11 && MonthStart(mp) <= doy < MonthStart(mp + 1)
  {
  }

  lemma MonthLength(year: nat, mp: nat)
    requires mp <= 10
    ensures MonthStart(mp + 1) - MonthStart(mp) == DaysInMonth(year, if mp < 10 then mp + 3 else mp - 9)
  {
  }

  /** The date of day `doy` of the March-based year `y`. */
  function FromYear(y: nat, doy: nat): Date
    requires doy <= 365
  {
    MonthIsRight(doy);
    var mp := (5 * doy + 2) / 153;
    var m := if mp < 10 then mp + 3 else mp - 9;
    Date(if m <= 2 then y + 1 else y, m, doy - MonthStart(mp) + 1)
  }

  lemma FromEraIsFromYear(era: nat, doe: nat, y: nat)
    requires doe < 146097 && y < 400 && YearStart(y) <= doe < YearStart(y + 1)
    ensures doe - YearStart(y) <= 365 && FromEra(era, doe) == FromYear(era * 400 + y, doe - YearStart(y))
  {
    YearIsUnique(doe, y);
    YearLength(era, y);
    assert y / 400 == 0;
  }

  lemma DayIsValid(y: nat, doy: nat, length: nat)
    requires length == (if IsLeap(y + 1) then 366 else 365) && doy < length
    ensures ValidDate(FromYear(y, doy))
  {
    var mp := (5 * doy + 2) / 153;
    MonthIsRight(doy);
    if mp <= 10 {
      MonthLength(if mp < 10 then y else y + 1, mp);
    }
  }

  lemma DayRunsOn(y: nat, doy: nat, length: nat)
    requires length == (if IsLeap(y + 1) then 366 else 365) && doy + 1 < length
    requires ValidDate(FromYear(y, doy))
    ensures NextDay(FromYear(y, doy)) == FromYear(y, doy + 1)
  {
    var mp := (5 * doy + 2) / 153;
    MonthIsRight(doy);
    MonthIsRight(doy + 1);
    if mp <= 10 {
      MonthLength(if mp < 10 then y else y + 1, mp);
    }
    assert (5 * (doy + 1) + 2) / 153 == if doy + 1 < MonthStart(mp + 1) then mp else mp + 1;
  }

  lemma LastDayRunsOn(y: nat, length: nat)
    requires length == (if IsLeap(y + 1) then 366 else 365) && ValidDate(FromYear(y, length - 1))
    ensures NextDay(FromYear(y, length - 1)) == FromYear(y + 1, 0)
  {
    MonthIsRight(length - 1);
  }

  /** Within a March-based year of `length` days the dates are valid, and each is the next day after the one before. */
  lemma YearRunsOn(y: nat, doy: nat, length: nat)
    requires length == (if IsLeap(y + 1) then 366 else 365) && doy < length
    ensures ValidDate(FromYear(y, doy))
    ensures NextDay(FromYear(y, doy)) == if doy + 1 < length then FromYear(y, doy + 1) else FromYear(y + 1, 0)
  {
    DayIsValid(y, doy, length);
    if doy + 1 < length {
      DayRunsOn(y, doy, length);
    } else {
      LastDayRunsOn(y, length);
    }
  }

  /** Era and day of era are the only way to split a day number. */
  lemma SplitDays(days: nat, era: nat, doe: nat)
    requires days + 719468 == 146097 * era + doe && doe < 146097
    ensures DaysToYmd(days) == FromEra(era, doe)
  {
    var z := days + 719468;
    QuotientIs(z, era, doe);
    var e := z / 146097;
    assert z - e * 146097 == doe;
  }

  lemma QuotientIs(z: nat, era: nat, doe: nat)
    requires z == 146097 * era + doe && doe < 146097
    ensures z / 146097 == era
  {
  }

  /** Day zero is the epoch. */
  lemma EpochIsDayZero()
    ensures DaysToYmd(0) == Date(1970, 1, 1)
  {
    FromEraIsFromYear(4, 135080, 369);
  }

  /** Within an era each day's date is the next day after the one before. */
  lemma EraRunsOn(era: nat, doe: nat)
    requires doe + 1 < 146097
    ensures ValidDate(FromEra(era, doe)) && FromEra(era, doe + 1) == NextDay(FromEra(era, doe))
  {
    var y, n := YearOf(doe), YearOf(doe + 1);
    FromEraIsFromYear(era, doe, y);
    FromEraIsFromYear(era, doe + 1, n);
    EraDay(era, doe, y, n);
  }

  function YearOf(doe: nat): (y: nat)
    requires doe < 146097
    ensures y < 400 && YearStart(y) <= doe < YearStart(y + 1)
  {
    YearOfEraIsRight(doe);
    YearOfEra(doe)
  }

  lemma EraDay(era: nat, doe: nat, y: nat, n: nat)
    requires doe + 1 < 146097 && y < 400 && n < 400
    requires YearStart(y) <= doe < YearStart(y + 1) && YearStart(n) <= doe + 1 < YearStart(n + 1)
    requires doe - YearStart(y) <= 365 && doe + 1 - YearStart(n) <= 365
    ensures var date := FromYear(era * 400 + y, doe - YearStart(y));
      ValidDate(date) && FromYear(era * 400 + n, doe + 1 - YearStart(n)) == NextDay(date)
  {
    YearOrNext(doe, y, n);
    YearLength(era, y);
    NextInYear(era * 400 + y, doe - YearStart(y), YearStart(y + 1) - YearStart(y), era * 400 + n, doe + 1 - YearStart(n));
  }

  lemma NextInYear(year: nat, doy: nat, length: nat, next: nat, nextDoy: nat)
    requires length == (if IsLeap(year + 1) then 366 else 365) && doy < length
    requires if doy + 1 < length then next == year && nextDoy == doy + 1 else next == year + 1 && nextDoy == 0
    ensures ValidDate(FromYear(year, doy)) && FromYear(next, nextDoy) == NextDay(FromYear(year, doy))
  {
    YearRunsOn(year, doy, length);
  }

  lemma YearOrNext(doe: nat, y: nat, n: nat)
    requires doe + 1 < 146097 && y < 400 && n < 400
    requires YearStart(y) <= doe < YearStart(y + 1) && YearStart(n) <= doe + 1 < YearStart(n + 1)
    ensures if doe + 1 < YearStart(y + 1) then n == y else n == y + 1 && YearStart(n) == doe + 1
  {
  }

  lemma EraEnds(era: nat)
    ensures ValidDate(FromEra(era, 146096)) && FromEra(era + 1, 0) == NextDay(FromEra(era, 146096))
  {
    var y: nat := era * 400 + 399;
    FromEraIsFromYear(era, 146096, 399);
    assert FromEra(era, 146096) == FromYear(y, 365);
    FromEraIsFromYear(era + 1, 0, 0);
    assert FromEra(era + 1, 0) == FromYear(y + 1, 0);
    LastDayOfEra(era, y);
  }

  lemma LastDayOfEra(era: nat, y: nat)
    requires y == era * 400 + 399
    ensures ValidDate(FromYear(y, 365)) && NextDay(FromYear(y, 365)) == FromYear(y + 1, 0)
  {
    LeapRepeats(era, 400);
    YearRunsOn(y, 365, 366);
  }

  /** Every day number names a date of the calendar, and the next number names the next day. */
  lemma SuccessorDay(days: nat)
    ensures ValidDate(DaysToYmd(days)) && DaysToYmd(days + 1) == NextDay(DaysToYmd(days))
  {
    var era, doe := EraOf(days);
    SplitDays(days, era, doe);
    if doe + 1 < 146097 {
      SplitDays(days + 1, era, doe + 1);
      EraRunsOn(era, doe);
    } else {
      SplitDays(days + 1, era + 1, 0);
      EraEnds(era);
    }
  }

  lemma EraOf(days: nat) returns (era: nat, doe: nat)
    ensures days + 719468 == 146097 * era + doe && doe < 146097
  {
    era, doe := (days + 719468) / 146097, (days + 719468) % 146097;
  }

  // Day counting, independently of the formula.

  function DaysBeforeYear(year: nat): nat
    requires year >= 1970
  {
    if year == 1970 then 0 else DaysBeforeYear(year - 1) + (if IsLeap(year - 1) then 366 else 365)
  }

  function DaysBeforeMonth(year: nat, month: nat): nat
    requires 1 <= month <= 13
  {
    if month == 1 then 0 else DaysBeforeMonth(year, month - 1) + DaysInMonth(year, month - 1)
  }

  /** Days from the epoch to a date. */
  function DayNumber(d: Date): nat
    requires ValidDate(d) && d.year >= 1970
  {
    DaysBeforeYear(d.year) + DaysBeforeMonth(d.year, d.month) + d.day - 1
  }

  lemma YearDays(year: nat)
    ensures DaysBeforeMonth(year, 13) == if IsLeap(year) then 366 else 365
  {
    assert DaysBeforeMonth(year, 3) == DaysBeforeMonth(year, 1) + 31 + DaysInMonth(year, 2);
    assert DaysBeforeMonth(year, 5) == DaysBeforeMonth(year, 3) + 61;
    assert DaysBeforeMonth(year, 7) == DaysBeforeMonth(year, 5) + 61;
    assert DaysBeforeMonth(year, 9) == DaysBeforeMonth(year, 7) + 62;
    assert DaysBeforeMonth(year, 11) == DaysBeforeMonth(year, 9) + 61;
    assert DaysBeforeMonth(year, 13) == DaysBeforeMonth(year, 11) + 61;
  }

  lemma NextDayNumber(d: Date)
    requires ValidDate(d) && d.year >= 1970
    ensures ValidDate(NextDay(d)) && DayNumber(NextDay(d)) == DayNumber(d) + 1
  {
    if d.month == 12 && d.day == 31 {
      YearDays(d.year);
      assert DaysBeforeMonth(d.year, 13) == DaysBeforeMonth(d.year, 12) + 31;
    }
  }

  /** Stepping from the epoch to the next day each time counts the days. */
  lemma {:induction false} StepsCount(date: nat -> Date, days: nat)
    requires date(0) == Date(1970, 1, 1)
    requires forall n: nat :: ValidDate(date(n)) && date(n + 1) == NextDay(date(n))
    ensures ValidDate(date(days)) && date(days).year >= 1970 && DayNumber(date(days)) == days
  {
    if days > 0 {
      StepsCount(date, days - 1);
      assert date(days - 1 + 1) == NextDay(date(days - 1));
      NextDayNumber(date(days - 1));
    }
  }

  /** The conversion inverts day counting. */
  lemma CountsBack(days: nat)
    ensures ValidDate(DaysToYmd(days)) && DaysToYmd(days).year >= 1970 && DayNumber(DaysToYmd(days)) == days
  {
    EpochIsDayZero();
    forall n: nat ensures ValidDate(DaysToYmd(n)) && DaysToYmd(n + 1) == NextDay(DaysToYmd(n)) {
      SuccessorDay(n);
    }
    StepsCount(DaysToYmd, days);
  }

  predicate Earlier(d: Date, e: Date) {
    d.year < e.year || (d.year == e.year && (d.month < e.month || (d.month == e.month && d.day < e.day)))
  }

  lemma {:induction false} MonthsGrow(year: nat, m: nat, n: nat)
    requires 1 <= m < n <= 13
    ensures DaysBeforeMonth(year, m) + DaysInMonth(year, m) <= DaysBeforeMonth(year, n)
  {
    if m < n - 1 {
      MonthsGrow(year, m, n - 1);
    }
  }

  lemma {:induction false} YearsGrow(m: nat, n: nat)
    requires 1970 <= m < n
    ensures DaysBeforeYear(m) + (if IsLeap(m) then 366 else 365) <= DaysBeforeYear(n)
  {
    if m < n - 1 {
      YearsGrow(m, n - 1);
    }
  }

  /** Later dates have larger numbers. */
  lemma DayNumberGrows(d: Date, e: Date)
    requires ValidDate(d) && ValidDate(e) && d.year >= 1970 && e.year >= 1970 && Earlier(d, e)
    ensures DayNumber(d) < DayNumber(e)
  {
    if d.year < e.year {
      YearsGrow(d.year, e.year);
      YearDays(d.year);
      MonthsGrow(d.year, d.month, 13);
    } else if d.month < e.month {
      MonthsGrow(d.year, d.month, e.month);
    }
  }

  lemma DayNumberOrders(d: Date, e: Date)
    requires ValidDate(d) && ValidDate(e) && d.year >= 1970 && e.year >= 1970
    ensures DayNumber(d) < DayNumber(e) <==> Earlier(d, e)
    ensures DayNumber(d) == DayNumber(e) ==> d == e
  {
    if Earlier(d, e) {
      DayNumberGrows(d, e);
    } else if Earlier(e, d) {
      DayNumberGrows(e, d);
    }
  }

  lemma Counted(n: nat, d: Date)
    requires d == DaysToYmd(n)
    ensures ValidDate(d) && d.year >= 1970 && DayNumber(d) == n
  {
    CountsBack(n);
  }

  lemma DayBefore(m: nat, n: nat, d: Date, e: Date)
    requires d == DaysToYmd(m) && e == DaysToYmd(n)
    ensures m < n <==> Earlier(d, e)
  {
    Counted(m, d);
    Counted(n, e);
    DayNumberOrders(d, e);
  }

  lemma NumberedDay(d: Date, e: Date)
    requires ValidDate(d) && d.year >= 1970 && e == DaysToYmd(DayNumber(d))
    ensures e == d
  {
    Counted(DayNumber(d), e);
    DayNumberOrders(d, e);
  }

  /** So the conversion is strictly increasing, and it reaches every date from 1970 on. */
  lemma StrictlyIncreasingAndOnto(m: nat, n: nat, d: Date)
    requires ValidDate(d) && d.year >= 1970
    ensures m < n <==> Earlier(DaysToYmd(m), DaysToYmd(n))
    ensures DaysToYmd(DayNumber(d)) == d
  {
    DayBefore(m, n, DaysToYmd(m), DaysToYmd(n));
    NumberedDay(d, DaysToYmd(DayNumber(d)));
  }
}
