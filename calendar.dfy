/** The day of the week of a service date written as the integer yyyymmdd,
    in the proleptic Gregorian calendar. An out-of-range month or day rolls
    over into the following months, as a JavaScript `Date` built from year,
    month and day does (ECMAScript MakeDay). */
module Calendar {

  const Sunday: int := 0
  const Saturday: int := 6

  /** Days from 1970-01-01 to the given date, for a month in 1..12 and a day
      in 1..31 (days-from-civil over 400-year eras). */
  function DaysFromCivil(year: int, month: int, day: int): int
    requires 1 <= month <= 12
  {
    var y := if month <= 2 then year - 1 else year;
    var era := y / 400;
    var yoe := y % 400;
    var mp := if month > 2 then month - 3 else month + 9;
    var doy := (153 * mp + 2) / 5 + day - 1;
    var doe := yoe * 365 + yoe / 4 - yoe / 100 + doy;
    era * 146097 + doe - 719468
  }

  /** MakeDay: the month index (from 0) may lie outside 0..11 and the day
      outside the month; both roll over. */
  function MakeDay(year: int, monthIndex: int, day: int): int {
    DaysFromCivil(year + monthIndex / 12, monthIndex % 12 + 1, 1) + day - 1
  }

  /** Day number of the date yyyymmdd. */
  function DayNumber(date: int): int {
    MakeDay(date / 10000, (date / 100) % 100 - 1, date % 100)
  }

  /** 0 is Sunday and 6 is Saturday; 1970-01-01 was a Thursday. */
  function WeekdayOfDay(days: int): (d: int)
    ensures 0 <= d < 7
  {
    (days + 4) % 7
  }

  function DayOfWeek(date: int): (d: int)
    ensures 0 <= d < 7
  {
    WeekdayOfDay(DayNumber(date))
  }

  predicate IsWeekendDate(date: int) {
    var d := DayOfWeek(date);
    d == Saturday || d == Sunday
  }

  /** A calendar date; `Number` writes it as the integer yyyymmdd. */
  datatype Date = Date(year: int, month: int, day: int)

  function Number(d: Date): int {
    d.year * 10000 + d.month * 100 + d.day
  }

  predicate ValidDate(d: Date) {
    1 <= d.month <= 12 && 1 <= d.day <= DaysInMonth(d.year, d.month)
  }

  /** The following calendar day, rolling over the end of a month and of a year. */
  function NextDate(d: Date): (n: Date)
    requires ValidDate(d)
    ensures ValidDate(n)
  {
    if d.day < DaysInMonth(d.year, d.month) then Date(d.year, d.month, d.day + 1)
    else if d.month < 12 then Date(d.year, d.month + 1, 1)
    else Date(d.year + 1, 1, 1)
  }

  /** The date after a valid date falls on the next day of the week, across
      month ends, year ends and leap days alike. */
  lemma NextDayNextWeekday(d: Date)
    requires ValidDate(d)
    ensures DayOfWeek(Number(NextDate(d))) == (DayOfWeek(Number(d)) + 1) % 7
  {
    var n := NextDate(d);
    DateDayNumber(d);
    DateDayNumber(n);
    NextDayCount(d);
    WeekdayStep(DayNumber(Number(d)));
  }

  /** The day number of a valid date is `DaysFromCivil` of its parts. */
  lemma DateDayNumber(d: Date)
    requires ValidDate(d)
    ensures DayNumber(Number(d)) == DaysFromCivil(d.year, d.month, d.day)
  {
    DayNumberOfDate(d.year, d.month, d.day);
  }

  /** The next date is one day later. */
  lemma NextDayCount(d: Date)
    requires ValidDate(d)
    ensures DaysFromCivil(NextDate(d).year, NextDate(d).month, NextDate(d).day) == DaysFromCivil(d.year, d.month, d.day) + 1
  {
    if d.day < DaysInMonth(d.year, d.month) {
      DayStep(d.year, d.month, d.day);
    } else {
      MonthLength(d.year, d.month);
      DaysInto(d.year, d.month, d.day);
    }
  }

  /** The next day of the same month is one day later. */
  lemma DayStep(year: int, month: int, day: int)
    requires 1 <= month <= 12
    ensures DaysFromCivil(year, month, day + 1) == DaysFromCivil(year, month, day) + 1
  {
  }

  /** A day of the month lies `day - 1` days after the first. */
  lemma DaysInto(year: int, month: int, day: int)
    requires 1 <= month <= 12
    ensures DaysFromCivil(year, month, day) == DaysFromCivil(year, month, 1) + day - 1
  {
  }

  lemma WeekdayStep(days: int)
    ensures WeekdayOfDay(days + 1) == (WeekdayOfDay(days) + 1) % 7
  {
  }

  /** A date written yyyymmdd with a month in 1..12 and a day in 1..99 is
      the day `DaysFromCivil` gives for its parts. */
  lemma DayNumberOfDate(year: int, month: int, day: int)
    requires 1 <= month <= 12 && 1 <= day < 100
    ensures DayNumber(year * 10000 + month * 100 + day) == DaysFromCivil(year, month, day)
  {
    var date := year * 10000 + month * 100 + day;
    DateDigits(year, month, day);
    assert DayNumber(date) == MakeDay(year, month - 1, day);
    MonthStart(year, month, day);
  }

  /** The year, month and day digits of yyyymmdd. */
  lemma DateDigits(year: int, month: int, day: int)
    requires 1 <= month <= 12 && 1 <= day < 100
    ensures var date := year * 10000 + month * 100 + day;
      date / 10000 == year && (date / 100) % 100 == month && date % 100 == day
  {
    var ym := year * 100 + month;
    assert year * 10000 + month * 100 + day == ym * 100 + day;
    Hundreds(ym, day);
    Hundreds(year, month);
    TenThousands(year, month * 100 + day);
  }

  /** A day of the month counts on from the first of that month. */
  lemma MonthStart(year: int, month: int, day: int)
    requires 1 <= month <= 12
    ensures MakeDay(year, month - 1, day) == DaysFromCivil(year, month, day)
  {
    assert (month - 1) / 12 == 0 && (month - 1) % 12 == month - 1;
    assert MakeDay(year, month - 1, day) == DaysFromCivil(year, month, 1) + day - 1;
  }

  /** Euclidean division by 100 of a number whose last two digits are `r`. */
  lemma Hundreds(q: int, r: int)
    requires 0 <= r < 100
    ensures (q * 100 + r) / 100 == q && (q * 100 + r) % 100 == r
  {
  }

  lemma TenThousands(q: int, r: int)
    requires 0 <= r < 10000
    ensures (q * 10000 + r) / 10000 == q
  {
  }

  predicate IsLeapYear(year: int) {
    year % 4 == 0 && (year % 100 != 0 || year % 400 == 0)
  }

  /** Gregorian month lengths, the reference `DaysFromCivil` is checked against. */
  function DaysInMonth(year: int, month: int): int
    requires 1 <= month <= 12
  {
    if month == 2 then (if IsLeapYear(year) then 29 else 28)
    else if month == 4 || month == 6 || month == 9 || month == 11 then 30
    else 31
  }

  /** The first of the next month comes exactly one month length after the
      first of this month, leap years included. */
  lemma MonthLength(year: int, month: int)
    requires 1 <= month <= 12
    ensures (if month < 12 then DaysFromCivil(year, month + 1, 1) else DaysFromCivil(year + 1, 1, 1))
            == DaysFromCivil(year, month, 1) + DaysInMonth(year, month)
  {
    if month == 2 {
      FebruaryLength(year);
    } else {
      var y := if month <= 2 then year - 1 else year;
      var mp := if month > 2 then month - 3 else month + 9;
      CivilDays(year, month, 1);
      if month < 12 {
        CivilDays(year, month + 1, 1);
      } else {
        CivilDays(year + 1, 1, 1);
      }
      MonthTable(mp);
    }
  }

  /** `DaysFromCivil` is the day of its era's shifted year and month plus the
      days into the month. */
  lemma CivilDays(year: int, month: int, day: int)
    requires 1 <= month <= 12
    ensures DaysFromCivil(year, month, day)
            == DayOfEra(if month <= 2 then year - 1 else year, if month > 2 then month - 3 else month + 9) + day - 1
  {
  }

  /** The lengths of the months from March (0) to January (10). */
  lemma MonthTable(mp: int)
    requires 0 <= mp <= 10
    ensures (153 * (mp + 1) + 2) / 5 - (153 * mp + 2) / 5 == (if mp == 1 || mp == 3 || mp == 6 || mp == 8 then 30 else 31)
  {
    if mp == 0 {} else if mp == 1 {} else if mp == 2 {} else if mp == 3 {} else if mp == 4 {}
    else if mp == 5 {} else if mp == 6 {} else if mp == 7 {} else if mp == 8 {} else if mp == 9 {}
  }

  /** `DaysFromCivil` of the first of the month `mp` months after March of
      the shifted year `y`. */
  function DayOfEra(y: int, mp: int): int {
    EraDays(y / 400, y % 400, mp)
  }

  function EraDays(era: int, yoe: int, mp: int): int {
    era * 146097 + yoe * 365 + yoe / 4 - yoe / 100 + (153 * mp + 2) / 5 - 719468
  }

  lemma FebruaryLength(year: int)
    ensures DaysFromCivil(year, 3, 1) == DaysFromCivil(year, 2, 1) + DaysInMonth(year, 2)
  {
    CivilDays(year, 3, 1);
    CivilDays(year, 2, 1);
    var q, r := (year - 1) / 400, (year - 1) % 400;
    assert year - 1 == 400 * q + r;
    if r == 399 {
      FourHundreds(q + 1, 0, year);
      EraEnd(q, year);
    } else {
      FourHundreds(q, r + 1, year);
      InsideEra(q, r, year);
    }
  }

  /** Euclidean division by 400 of `400 * q + r`. */
  lemma FourHundreds(q: int, r: int, y: int)
    requires 0 <= r < 400 && y == 400 * q + r
    ensures y / 400 == q && y % 400 == r
  {
  }

  /** A year that starts a 400-year era is a leap year, and February ends
      the previous era. */
  lemma EraEnd(q: int, year: int)
    requires year == 400 * (q + 1) && year / 400 == q + 1 && year % 400 == 0
    requires (year - 1) / 400 == q && (year - 1) % 400 == 399
    ensures DayOfEra(year, 0) == DayOfEra(year - 1, 11) + DaysInMonth(year, 2)
  {
    assert year % 4 == 0 && year % 100 == 0 by { LowDigits(year, q + 1, 0); }
    assert DaysInMonth(year, 2) == 29;
    assert EraDays(q + 1, 0, 0) == q * 146097 + 146097 - 719468;
    assert EraDays(q, 399, 11) == q * 146097 + 146068 - 719468;
  }

  lemma LowDigits(year: int, q: int, r: int)
    requires year == 400 * q + r
    ensures year % 4 == r % 4 && year % 100 == r % 100
  {
    assert year == 4 * (100 * q) + r;
    assert year == 100 * (4 * q) + r;
  }

  lemma InsideEra(q: int, r: int, year: int)
    requires 0 <= r < 399 && year - 1 == 400 * q + r
    requires year / 400 == q && year % 400 == r + 1
    requires (year - 1) / 400 == q && (year - 1) % 400 == r
    ensures DayOfEra(year, 0) == DayOfEra(year - 1, 11) + DaysInMonth(year, 2)
  {
    LowDigits(year, q, r + 1);
    LeapStep(r);
    assert (153 * 0 + 2) / 5 == 0 && (153 * 11 + 2) / 5 == 337;
    assert DayOfEra(year, 0) == EraDays(q, r + 1, 0);
    assert DayOfEra(year - 1, 11) == EraDays(q, r, 11);
  }

  /** Inside an era, the day count of a year grows by 366 after each year
      divisible by 4 but not by 100 (counted from March), and by 365 otherwise. */
  lemma LeapStep(yoe: int)
    requires 0 <= yoe < 399
    ensures var z := yoe + 1;
      z * 365 + z / 4 - z / 100 - (yoe * 365 + yoe / 4 - yoe / 100)
      == 365 + (if z % 4 == 0 && z % 100 != 0 then 1 else 0)
  {
    var z := yoe + 1;
    assert z / 4 - yoe / 4 == (if z % 4 == 0 then 1 else 0);
    assert z / 100 - yoe / 100 == (if z % 100 == 0 then 1 else 0);
  }

  /** Anchors: 1970-01-01 was a Thursday, 2000-02-29 a Tuesday, 2024-01-06 a
      Saturday and 2024-01-08 a Monday. */
  lemma EpochWasThursday()
    ensures DayOfWeek(19700101) == 4
  {
    assert 19700101 / 10000 == 1970 && (19700101 / 100) % 100 == 1 && 19700101 % 100 == 1;
    assert DayNumber(19700101) == DaysFromCivil(1970, 1, 1);
    assert 1969 / 400 == 4 && 1969 % 400 == 369 && 369 / 4 == 92 && 369 / 100 == 3 && (153 * 10 + 2) / 5 == 306;
    assert DayNumber(19700101) == 0;
    assert WeekdayOfDay(0) == 4;
  }

  lemma LeapDay2000WasTuesday()
    ensures DayOfWeek(20000229) == 2
  {
    DayNumberOfDate(2000, 2, 29);
    assert 1999 / 400 == 4 && 1999 % 400 == 399 && 399 / 4 == 99 && 399 / 100 == 3 && (153 * 11 + 2) / 5 == 337;
    assert DayNumber(20000229) == 11016;
    assert (11016 + 4) % 7 == 2;
  }

  lemma Weekend2024()
    ensures DayOfWeek(20240106) == Saturday && IsWeekendDate(20240106)
    ensures DayOfWeek(20240108) == 1 && !IsWeekendDate(20240108)
  {
    DayNumberOfDate(2024, 1, 6);
    DayNumberOfDate(2024, 1, 8);
    assert 2023 / 400 == 5 && 2023 % 400 == 23 && 23 / 4 == 5 && 23 / 100 == 0 && (153 * 10 + 2) / 5 == 306;
    assert DayNumber(20240106) == 19728;
    assert DayNumber(20240108) == 19730;
    assert (19728 + 4) % 7 == 6 && (19730 + 4) % 7 == 1;
  }
}
