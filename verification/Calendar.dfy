/** The civil-calendar arithmetic of glossary.rs and its proof against the
    proleptic Gregorian calendar. */
module Calendar {

  /** Division of the original's integers, which truncates toward zero. */
  function TruncDiv(a: int, b: int): int
    requires b > 0
  {
    if a >= 0 then a / b else -((-a) / b)
  }

  datatype Date = Date(year: int, month: int, day: int)

  // ---- The operations ----

  function DaysFromCivil(date: Date): int {
    var year := if date.month <= 2 then date.year - 1 else date.year;
    var era := TruncDiv(if year >= 0 then year else year - 399, 400);
    var yearOfEra := year - era * 400;
    var monthIndex := if date.month > 2 then date.month - 3 else date.month + 9;
    var dayOfYear := TruncDiv(153 * monthIndex + 2, 5) + date.day - 1;
    var dayOfEra := yearOfEra * 365 + TruncDiv(yearOfEra, 4) - TruncDiv(yearOfEra, 100) + dayOfYear;
    era * 146097 + dayOfEra - 719468
  }

  function CivilFromDays(days: int): Date {
    var serial := days + 719468;
    var era := TruncDiv(if serial >= 0 then serial else serial - 146096, 146097);
    var dayOfEra := serial - era * 146097;
    var yearOfEra := YearOfEra(dayOfEra);
    var year := yearOfEra + era * 400;
    var dayOfYear := dayOfEra - (365 * yearOfEra + TruncDiv(yearOfEra, 4) - TruncDiv(yearOfEra, 100));
    MarchDate(year, dayOfYear)
  }

  /** The date of day `dayOfYear` of the year that starts in March of `year`. */
  function MarchDate(year: int, dayOfYear: int): Date {
    var monthIndex := TruncDiv(5 * dayOfYear + 2, 153);
    var day := dayOfYear - TruncDiv(153 * monthIndex + 2, 5) + 1;
    var month := if monthIndex < 10 then monthIndex + 3 else monthIndex - 9;
    Date(if month <= 2 then year + 1 else year, month, day)
  }

  function YearOfEra(dayOfEra: int): int {
    TruncDiv(dayOfEra - TruncDiv(dayOfEra, 1460) + TruncDiv(dayOfEra, 36524) - TruncDiv(dayOfEra, 146096), 365)
  }

  // ---- The Gregorian calendar, independently of the operations ----

  predicate IsLeap(year: int) {
    year % 4 == 0 && (year % 100 != 0 || year % 400 == 0)
  }

  function DaysInMonth(year: int, month: int): int {
    if month == 2 then (if IsLeap(year) then 29 else 28)
    else if month == 4 || month == 6 || month == 9 || month == 11 then 30
    else 31
  }

  predicate IsReal(date: Date) {
    1 <= date.month <= 12 && 1 <= date.day <= DaysInMonth(date.year, date.month)
  }

  function NextDay(date: Date): Date {
    if date.day < DaysInMonth(date.year, date.month) then date.(day := date.day + 1)
    else if date.month < 12 then Date(date.year, date.month + 1, 1)
    else Date(date.year + 1, 1, 1)
  }

  predicate Before(a: Date, b: Date) {
    a.year < b.year || (a.year == b.year && (a.month < b.month || (a.month == b.month && a.day < b.day)))
  }

  // ---- Years that start in March: the shape both operations compute in ----

  /** Day number, within its 400-year era, of the first day of year `y` of the era. */
  function YearStart(y: int): int {
    365 * y + y / 4 - y / 100
  }

  /** The era year `y` runs from March to the following February, so its length
      is that of the leap rule one calendar year later. */
  function YearLength(y: int): int {
    if IsLeap(y + 1) then 366 else 365
  }

  /** First day of month `m` of a year counted from March (m = 0). */
  function MonthStart(m: int): int {
    (153 * m + 2) / 5
  }

  lemma YearOfEraIsExact(c: int, p: int, s: int, doy: int)
    requires 0 <= c <= 3 && 0 <= p <= 24 && 0 <= s <= 3
    requires 0 <= doy <= 365
    requires doy == 365 ==> s == 3 && (p < 24 || c == 3)
    ensures YearOfEra(36524 * c + 1461 * p + 365 * s + doy) == 100 * c + 4 * p + s
  {
    var doe := 36524 * c + 1461 * p + 365 * s + doy;
    var rest := 1461 * p + 365 * s + doy;
    var y := 100 * c + 4 * p + s;
    assert doe / 146096 == (if doe == 146096 then 1 else 0);
    assert doe / 36524 == c + (if doe == 146096 then 1 else 0);
    assert 25 * c + p - 1 <= doe / 1460 <= 25 * c + p + 1;
    var t := doe - doe / 1460 + doe / 36524 - doe / 146096;
    assert 365 * y <= t < 365 * y + 365;
  }

  lemma NoMultipleBetween(b: int, d: int)
    requires -b < b * d < b
    ensures d == 0
  {
  }

  lemma Quotient(x: int, b: int, q: int, r: int)
    requires 0 <= r < b && x == b * q + r
    ensures x / b == q && x % b == r
  {
    assert b * (q - x / b) == x % b - r;
    NoMultipleBetween(b, q - x / b);
  }

  /** The corrections by 399 and 146096 turn truncation into rounding down. */
  lemma ErasRoundDown(year: int, serial: int)
    ensures TruncDiv(if year >= 0 then year else year - 399, 400) == year / 400
    ensures TruncDiv(if serial >= 0 then serial else serial - 146096, 146097) == serial / 146097
  {
  }

  lemma YearOfEraInverse(y: int, doy: int)
    requires 0 <= y < 400 && 0 <= doy < YearLength(y)
    ensures 0 <= YearStart(y) + doy < 146097
    ensures YearOfEra(YearStart(y) + doy) == y
  {
    var c, p, s := y / 100, y % 100 / 4, y % 4;
    assert y == 100 * c + 4 * p + s;
    YearOfEraIsExact(c, p, s, doy);
  }

  /** Every day of an era lies in exactly one year of it, the one the original's
      closed formula names. */
  lemma SplitEra(doe: int) returns (y: int, doy: int)
    requires 0 <= doe < 146097
    ensures 0 <= y < 400 && 0 <= doy < YearLength(y)
    ensures doe == YearStart(y) + doy && YearOfEra(doe) == y
  {
    var c := if doe / 36524 < 4 then doe / 36524 else 3;
    var inCentury := doe - 36524 * c;
    var p := inCentury / 1461;
    var inCycle := inCentury - 1461 * p;
    var s := if inCycle / 365 < 4 then inCycle / 365 else 3;
    y, doy := 100 * c + 4 * p + s, inCycle - 365 * s;
    assert 0 <= p <= 24;
    assert y / 4 == 25 * c + p && y / 100 == c;
    YearOfEraInverse(y, doy);
  }

  /** A date of a year counted from March, and the day of that year. */
  ghost predicate InMarchYear(date: Date, year: int, doy: int) {
    var m := if date.month > 2 then date.month - 3 else date.month + 9;
    (if date.month > 2 then date.year == year else date.year == year + 1) &&
    doy == MonthStart(m) + date.day - 1
  }

  lemma RealInMarchYear(date: Date, year: int, doy: int)
    requires IsReal(date) && InMarchYear(date, year, doy)
    ensures 0 <= doy < YearLength(year)
  {
  }

  lemma MarchDateIsReal(year: int, doy: int)
    requires 0 <= doy < YearLength(year)
    ensures IsReal(MarchDate(year, doy)) && InMarchYear(MarchDate(year, doy), year, doy)
  {
    assert 0 <= (5 * doy + 2) / 153 <= 11;
  }

  lemma YearOfManyEras(era: int, y: int)
    requires 0 <= y < 400
    ensures (400 * era + y) / 400 == era && (400 * era + y) % 400 == y
    ensures YearLength(400 * era + y) == YearLength(y)
  {
    Quotient(400 * era + y, 400, era, y);
    var x := 400 * era + y + 1;
    Quotient(x, 4, 100 * era + (y + 1) / 4, (y + 1) % 4);
    Quotient(x, 100, 4 * era + (y + 1) / 100, (y + 1) % 100);
    Quotient(x, 400, era + (y + 1) / 400, (y + 1) % 400);
  }

  /** The day count of the first day of a year counted from March. */
  function YearBegins(year: int): int {
    year / 400 * 146097 + YearStart(year % 400) - 719468
  }

  /** The day count of a date that is day `doy` of the March year `year`. */
  lemma DaysInMarchYear(date: Date, year: int, doy: int)
    requires 1 <= date.month <= 12
    requires InMarchYear(date, year, doy)
    ensures DaysFromCivil(date) == YearBegins(year) + doy
  {
    ErasRoundDown(year, 0);
  }

  lemma CivilFromEraDay(n: int, era: int, y: int, doy: int)
    requires 0 <= y < 400 && YearOfEra(YearStart(y) + doy) == y
    requires (n + 719468) / 146097 == era && n + 719468 == 146097 * era + YearStart(y) + doy
    ensures CivilFromDays(n) == MarchDate(400 * era + y, doy)
  {
    hide MarchDate, YearOfEra;
    ErasRoundDown(0, n + 719468);
  }

  lemma CivilFromDaysInMarchYear(n: int) returns (year: int, doy: int)
    ensures 0 <= doy < YearLength(year)
    ensures n == YearBegins(year) + doy
    ensures CivilFromDays(n) == MarchDate(year, doy)
  {
    hide CivilFromDays, MarchDate, YearOfEra;
    var era := (n + 719468) / 146097;
    var y;
    y, doy := SplitEra((n + 719468) % 146097);
    year := 400 * era + y;
    YearOfManyEras(era, y);
    CivilFromEraDay(n, era, y, doy);
  }

  /** The first half of the round trip: every day count names a real date, and
      that date counts back to it. */
  lemma CivilFromDaysIsReal(n: int)
    ensures IsReal(CivilFromDays(n))
    ensures DaysFromCivil(CivilFromDays(n)) == n
  {
    hide CivilFromDays, DaysFromCivil, MarchDate, YearLength;
    var year, doy := CivilFromDaysInMarchYear(n);
    MarchDateIsReal(year, doy);
    DaysInMarchYear(CivilFromDays(n), year, doy);
  }

  /** Day counts order real dates exactly as year, month and day do. */
  lemma DaysFollowCalendarOrder(a: Date, b: Date)
    requires IsReal(a) && IsReal(b)
    ensures Before(a, b) <==> DaysFromCivil(a) < DaysFromCivil(b)
    ensures a == b <==> DaysFromCivil(a) == DaysFromCivil(b)
  {
    hide DaysFromCivil;
    if Before(a, b) {
      BeforeCountsLess(a, b);
    } else if Before(b, a) {
      BeforeCountsLess(b, a);
    }
  }

  lemma MarchYearsKeepOrder(a: Date, ya: int, da: int, b: Date, yb: int, db: int)
    requires IsReal(a) && IsReal(b) && Before(a, b)
    requires InMarchYear(a, ya, da) && InMarchYear(b, yb, db)
    ensures ya < yb || (ya == yb && da < db)
  {
  }

  lemma BeforeCountsLess(a: Date, b: Date)
    requires IsReal(a) && IsReal(b) && Before(a, b)
    ensures DaysFromCivil(a) < DaysFromCivil(b)
  {
    hide DaysFromCivil, YearBegins, YearLength;
    var ya, da := ToMarchYear(a);
    var yb, db := ToMarchYear(b);
    MarchYearsKeepOrder(a, ya, da, b, yb, db);
    if ya < yb {
      YearsDoNotOverlap(ya, yb);
    }
  }

  lemma ToMarchYear(date: Date) returns (year: int, doy: int)
    requires IsReal(date)
    ensures InMarchYear(date, year, doy) && 0 <= doy < YearLength(year)
    ensures DaysFromCivil(date) == YearBegins(year) + doy
  {
    year := if date.month > 2 then date.year else date.year - 1;
    doy := MonthStart(if date.month > 2 then date.month - 3 else date.month + 9) + date.day - 1;
    RealInMarchYear(date, year, doy);
    DaysInMarchYear(date, year, doy);
  }

  lemma EraYearsAbut(y: int)
    requires 0 <= y < 400
    ensures YearStart(y) + YearLength(y) == if y == 399 then 146097 else YearStart(y + 1)
  {
  }

  lemma YearsAbut(year: int)
    ensures YearBegins(year + 1) == YearBegins(year) + YearLength(year)
  {
    var era, y := year / 400, year % 400;
    EraYearsAbut(y);
    YearOfManyEras(era, y);
    if y == 399 {
      Quotient(year + 1, 400, era + 1, 0);
    } else {
      Quotient(year + 1, 400, era, y + 1);
    }
  }

  lemma YearsDoNotOverlap(a: int, b: int)
    requires a < b
    ensures YearBegins(a) + YearLength(a) <= YearBegins(b)
    decreases b - a
  {
    hide YearBegins;
    YearsAbut(b - 1);
    if a + 1 < b {
      YearsDoNotOverlap(a, b - 1);
    }
  }

  /** The second half of the round trip, for every real date of any year. */
  lemma CivilFromDaysFromCivil(date: Date)
    requires IsReal(date)
    ensures CivilFromDays(DaysFromCivil(date)) == date
  {
    hide CivilFromDays, DaysFromCivil;
    var n := DaysFromCivil(date);
    CivilFromDaysIsReal(n);
    DaysFollowCalendarOrder(CivilFromDays(n), date);
  }

  /** One more day is the Gregorian next day. */
  lemma CivilFromDaysSteps(n: int)
    ensures CivilFromDays(n + 1) == NextDay(CivilFromDays(n))
  {
    hide CivilFromDays, DaysFromCivil, NextDay;
    CivilFromDaysIsReal(n);
    var today := CivilFromDays(n);
    NextDayCountsOne(today);
    CivilFromDaysFromCivil(NextDay(today));
  }

  lemma NextDayCountsOne(date: Date)
    requires IsReal(date)
    ensures IsReal(NextDay(date))
    ensures DaysFromCivil(NextDay(date)) == DaysFromCivil(date) + 1
  {
    hide DaysFromCivil, YearBegins;
    var year := if date.month > 2 then date.year else date.year - 1;
    var next := NextDay(date);
    if date.month == 2 && next.month == 3 {
      DaysInMarchYear(date, year, YearLength(year) - 1);
      DaysInMarchYear(next, date.year, 0);
      YearsAbut(year);
    } else {
      var doy := MonthStart(if date.month > 2 then date.month - 3 else date.month + 9) + date.day - 1;
      DaysInMarchYear(date, year, doy);
      DaysInMarchYear(next, year, doy + 1);
    }
  }

  /** The count starts at 1 January 1970. */
  lemma EpochIsDayZero()
    ensures CivilFromDays(0) == Date(1970, 1, 1)
  {
    hide CivilFromDays;
    CivilFromDaysFromCivil(Date(1970, 1, 1));
  }

  /** A day number past the end of its month counts on into the next month, so a
      date the parser accepts but the calendar lacks still has a day count. */
  lemma DaysAreLinearInDay(year: int, month: int, day: int, k: int)
    ensures DaysFromCivil(Date(year, month, day + k)) == DaysFromCivil(Date(year, month, day)) + k
  {
  }
}
