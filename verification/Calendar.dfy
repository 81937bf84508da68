/**
 The due-date flag and the date arithmetic it relies on: src/cli/linear-request-builders.ts over
 sections 21.4.1 and 21.4.3.4 of ECMA-262.
 */
module Calendar {
  import opened CliFlags

  // ---------------------------------------------------------------- day numbers (ECMA-262, 21.4.1)

  predicate InLeapYear(y: int) {
    y % 4 == 0 && (y % 100 != 0 || y % 400 == 0)
  }

  function DaysInYear(y: int): int {
    if InLeapYear(y) then 366 else 365
  }

  /** The number of the first day of a year; day 0 is the first of January 1970. */
  function DayFromYear(y: int): int {
    365 * (y - 1970) + (y - 1969) / 4 - (y - 1901) / 100 + (y - 1601) / 400
  }

  lemma QuotientSteps(a: int, k: int)
    requires k > 0
    ensures (a + 1) / k == a / k + (if (a + 1) % k == 0 then 1 else 0)
  {
    var q, r := a / k, a % k;
    assert a == k * q + r;
    if r == k - 1 {
      assert a + 1 == k * (q + 1) + 0;
      DivisionIsUnique(a + 1, k, q + 1, 0);
    } else {
      DivisionIsUnique(a + 1, k, q, r + 1);
    }
  }

  lemma DivisionIsUnique(a: int, k: int, q: int, r: int)
    requires k > 0 && a == k * q + r && 0 <= r < k
    ensures a / k == q && a % k == r
  {
    var d := a / k - q;
    assert k * d == r - a % k;
    MultipleIsFar(k, d);
  }

  lemma MultipleIsFar(k: int, d: int)
    requires k > 0
    ensures d >= 1 ==> k * d >= k
    ensures d <= -1 ==> k * d <= -k
  {
  }

  lemma YearHasItsDays(y: int)
    ensures DayFromYear(y + 1) == DayFromYear(y) + DaysInYear(y)
  {
    QuotientSteps(y - 1969, 4);
    QuotientSteps(y - 1901, 100);
    QuotientSteps(y - 1601, 400);
  }

  /** How far the search for the year of a day still has to go. */
  function Distance(day: int, y: int): nat {
    if DayFromYear(y) > day then DayFromYear(y) - day
    else if DayFromYear(y + 1) <= day then day - DayFromYear(y) + 1
    else 0
  }

  function YearFrom(day: int, y: int): (r: int)
    ensures DayFromYear(r) <= day < DayFromYear(r + 1)
    decreases Distance(day, y)
  {
    YearHasItsDays(y - 1);
    YearHasItsDays(y);
    if DayFromYear(y) > day then YearFrom(day, y - 1)
    else if DayFromYear(y + 1) <= day then YearFrom(day, y + 1)
    else y
  }

  /** The largest year that has begun by that day. */
  function YearFromDay(day: int): (r: int)
    ensures DayFromYear(r) <= day < DayFromYear(r + 1)
  {
    YearFrom(day, 1970)
  }

  lemma {:induction false} YearsAreInOrder(y: int, z: int)
    requires y <= z
    ensures DayFromYear(y) + (z - y) <= DayFromYear(z)
    decreases z - y
  {
    if y < z {
      YearHasItsDays(y);
      YearsAreInOrder(y + 1, z);
    }
  }

  lemma YearIsUnique(day: int, y: int)
    requires DayFromYear(y) <= day < DayFromYear(y + 1)
    ensures YearFromDay(day) == y
  {
    var r := YearFromDay(day);
    if r < y {
      YearsAreInOrder(r + 1, y);
    } else if y < r {
      YearsAreInOrder(y + 1, r);
    }
  }

  /** Days of a year before its month `m`, counted from 0. */
  function DaysBeforeMonth(m: int, leap: bool): int
    requires 0 <= m <= 12
  {
    [0, 31, 59, 90, 120, 151, 181, 212, 243, 273, 304, 334, 365][m] + if leap && m >= 2 then 1 else 0
  }

  function MonthWithinYear(dayWithinYear: int, leap: bool): (m: int)
    requires 0 <= dayWithinYear < (if leap then 366 else 365)
    ensures 0 <= m <= 11 && DaysBeforeMonth(m, leap) <= dayWithinYear < DaysBeforeMonth(m + 1, leap)
  {
    var extra := if leap then 1 else 0;
    if dayWithinYear < 31 then 0
    else if dayWithinYear < 59 + extra then 1
    else if dayWithinYear < 90 + extra then 2
    else if dayWithinYear < 120 + extra then 3
    else if dayWithinYear < 151 + extra then 4
    else if dayWithinYear < 181 + extra then 5
    else if dayWithinYear < 212 + extra then 6
    else if dayWithinYear < 243 + extra then 7
    else if dayWithinYear < 273 + extra then 8
    else if dayWithinYear < 304 + extra then 9
    else if dayWithinYear < 334 + extra then 10
    else 11
  }

  /** A year, a month from 1 and a day from 1. */
  datatype CalendarDate = CalendarDate(year: int, month: int, day: int)

  function DateFromDay(day: int): CalendarDate {
    var y := YearFromDay(day);
    YearHasItsDays(y);
    var within := day - DayFromYear(y);
    var m := MonthWithinYear(within, InLeapYear(y));
    CalendarDate(y, m + 1, within - DaysBeforeMonth(m, InLeapYear(y)) + 1)
  }

  /** The day number of a year, a month from 0 that may run over into other years, and a day of the month. */
  function MakeDay(year: int, month: int, date: int): int {
    var y := year + month / 12;
    DayFromYear(y) + DaysBeforeMonth(month % 12, InLeapYear(y)) + date - 1
  }

  // ---------------------------------------------------------------- the calendar itself

  function DaysInMonth(year: int, month: int): int {
    if month == 2 then (if InLeapYear(year) then 29 else 28)
    else if month in {4, 6, 9, 11} then 30
    else 31
  }

  predicate IsReal(d: CalendarDate) {
    1 <= d.month <= 12 && 1 <= d.day <= DaysInMonth(d.year, d.month)
  }

  lemma MonthHasItsDays(year: int, month: int)
    requires 1 <= month <= 12
    ensures DaysBeforeMonth(month, InLeapYear(year))
         == DaysBeforeMonth(month - 1, InLeapYear(year)) + DaysInMonth(year, month)
  {
  }

  /** Whatever day it is, it has a real date, and that date leads back to the day. */
  lemma DaysHaveRealDates(day: int)
    ensures IsReal(DateFromDay(day))
    ensures var d := DateFromDay(day); MakeDay(d.year, d.month - 1, d.day) == day
  {
    MonthHasItsDays(DateFromDay(day).year, DateFromDay(day).month);
  }

  lemma MonthsAreInOrder(m: int, n: int, leap: bool)
    requires 0 <= m < n <= 12
    ensures DaysBeforeMonth(m, leap) < DaysBeforeMonth(n, leap)
  {
  }

  lemma MonthIsUnique(within: int, leap: bool, m: int)
    requires 0 <= m <= 11 && DaysBeforeMonth(m, leap) <= within < DaysBeforeMonth(m + 1, leap)
    ensures 0 <= within < (if leap then 366 else 365) && MonthWithinYear(within, leap) == m
  {
    if m < 11 {
      MonthsAreInOrder(m + 1, 12, leap);
    }
    var n := MonthWithinYear(within, leap);
    if n + 1 < m {
      MonthsAreInOrder(n + 1, m, leap);
    } else if m + 1 < n {
      MonthsAreInOrder(m + 1, n, leap);
    }
  }

  lemma YearOfDayWithin(y: int, within: int)
    requires 0 <= within < DaysInYear(y)
    ensures YearFromDay(DayFromYear(y) + within) == y
  {
    YearHasItsDays(y);
    YearIsUnique(DayFromYear(y) + within, y);
  }

  lemma DateWithinYear(y: int, within: int, m: int)
    requires 0 <= within < DaysInYear(y) && MonthWithinYear(within, InLeapYear(y)) == m
    ensures DateFromDay(DayFromYear(y) + within)
         == CalendarDate(y, m + 1, within - DaysBeforeMonth(m, InLeapYear(y)) + 1)
  {
    YearOfDayWithin(y, within);
  }

  lemma MakeDayWithinYear(d: CalendarDate)
    requires 1 <= d.month <= 12
    ensures MakeDay(d.year, d.month - 1, d.day)
         == DayFromYear(d.year) + (DaysBeforeMonth(d.month - 1, InLeapYear(d.year)) + d.day - 1)
  {
  }

  lemma RealDateWithinYear(d: CalendarDate)
    requires IsReal(d)
    ensures var within := DaysBeforeMonth(d.month - 1, InLeapYear(d.year)) + d.day - 1;
            0 <= within < DaysInYear(d.year) && MonthWithinYear(within, InLeapYear(d.year)) == d.month - 1
  {
    var leap := InLeapYear(d.year);
    MonthHasItsDays(d.year, d.month);
    MonthIsUnique(DaysBeforeMonth(d.month - 1, leap) + d.day - 1, leap, d.month - 1);
  }

  /** Each real date has a day of its own. */
  lemma RealDatesHaveDays(d: CalendarDate)
    requires IsReal(d)
    ensures DateFromDay(MakeDay(d.year, d.month - 1, d.day)) == d
  {
    var leap := InLeapYear(d.year);
    var within := DaysBeforeMonth(d.month - 1, leap) + d.day - 1;
    MakeDayWithinYear(d);
    RealDateWithinYear(d);
    DateWithinYear(d.year, within, d.month - 1);
  }

  // ---------------------------------------------------------------- the flag

  datatype Result = Ok(value: string) | Missing | NotInFormat | NotReal

  predicate IsDigit(c: char) {
    '0' <= c <= '9'
  }

  predicate Digits(s: string, n: nat) {
    |s| == n && forall k :: 0 <= k < n ==> IsDigit(s[k])
  }

  predicate InFormat(s: string) {
    |s| == 10 && Digits(s[..4], 4) && s[4] == '-' && Digits(s[5..7], 2) && s[7] == '-' && Digits(s[8..], 2)
  }

  function Number(s: string): int
    requires Digits(s, |s|)
  {
    if s == "" then 0 else 10 * Number(s[..|s| - 1]) + (s[|s| - 1] - '0') as int
  }

  function DateIn(s: string): CalendarDate
    requires InFormat(s)
  {
    CalendarDate(Number(s[..4]), Number(s[5..7]), Number(s[8..]))
  }

  /** Date.UTC takes the years 0 to 99 for 1900 to 1999. */
  function UtcDay(d: CalendarDate): int {
    MakeDay(if 0 <= d.year <= 99 then 1900 + d.year else d.year, d.month - 1, d.day)
  }

  function DueDateFlag(flags: Flags, name: string): Result {
    if name !in flags || flags[name].Present? || flags[name].text == "" then Missing
    else
      var value := flags[name].text;
      if !InFormat(value) then NotInFormat
      else if DateFromDay(UtcDay(DateIn(value))) != DateIn(value) then NotReal
      else Ok(value)
  }

  /** The year is never negative, nor has it more than four digits. */
  lemma NumbersAreBounded(s: string)
    requires InFormat(s)
    ensures 0 <= DateIn(s).year <= 9999 && 0 <= DateIn(s).month <= 99 && 0 <= DateIn(s).day <= 99
  {
    NumberIsBounded(s[..4]);
    NumberIsBounded(s[5..7]);
    NumberIsBounded(s[8..]);
  }

  function PowerOfTen(n: nat): nat {
    if n == 0 then 1 else 10 * PowerOfTen(n - 1)
  }

  lemma {:induction false} NumberIsBounded(s: string)
    requires Digits(s, |s|)
    ensures 0 <= Number(s) < PowerOfTen(|s|)
  {
    if s != "" {
      NumberIsBounded(s[..|s| - 1]);
    }
  }

  /** A date comes back from the day number it was turned into exactly when it is real and not before the year 100. */
  lemma SurvivesUtcIff(d: CalendarDate)
    requires d.year >= 0
    ensures DateFromDay(UtcDay(d)) == d <==> d.year >= 100 && IsReal(d)
  {
    DaysHaveRealDates(UtcDay(d));
    if IsReal(d) {
      if d.year >= 100 {
        RealDatesHaveDays(d);
      } else {
        EarlyYearsAreShifted(d);
      }
    }
  }

  /** Dates of the years 0 to 99 come back in another year, also the one leap day that 1900 does not have. */
  lemma EarlyYearsAreShifted(d: CalendarDate)
    requires IsReal(d) && 0 <= d.year <= 99
    ensures DateFromDay(UtcDay(d)).year == 1900 + d.year
  {
    var shifted := CalendarDate(1900 + d.year, d.month, d.day);
    if IsReal(shifted) {
      RealDatesHaveDays(shifted);
    } else {
      OnlyLeapDayOfYear0(d);
      YearIsUnique(UtcDay(d), 1900);
    }
  }

  lemma OnlyLeapDayOfYear0(d: CalendarDate)
    requires IsReal(d) && 0 <= d.year <= 99 && !IsReal(CalendarDate(1900 + d.year, d.month, d.day))
    ensures d == CalendarDate(0, 2, 29)
  {
    assert InLeapYear(d.year) && !InLeapYear(1900 + d.year);
  }

  /** The flag is accepted exactly for a real date, written YYYY-MM-DD, of the years 100 to 9999. */
  lemma AcceptsExactlyRealDates(flags: Flags, name: string, value: string)
    requires name in flags && flags[name] == Text(value)
    ensures DueDateFlag(flags, name) == Ok(value) <==>
            InFormat(value) && 100 <= DateIn(value).year <= 9999 && IsReal(DateIn(value))
  {
    if InFormat(value) {
      NumbersAreBounded(value);
      SurvivesUtcIff(DateIn(value));
    }
  }

  function Padded(n: int, width: nat): string
    requires 0 <= n < PowerOfTen(width)
  {
    if width == 0 then "" else Padded(n / 10, width - 1) + ['0' + (n % 10) as char]
  }

  lemma {:induction false} PaddedReadsBack(n: int, width: nat)
    requires 0 <= n < PowerOfTen(width)
    ensures Digits(Padded(n, width), width) && Number(Padded(n, width)) == n
  {
    if width > 0 {
      PaddedReadsBack(n / 10, width - 1);
      var s := Padded(n, width);
      assert s[..width - 1] == Padded(n / 10, width - 1);
    }
  }

  function Written(d: CalendarDate): string
    requires 0 <= d.year <= 9999 && IsReal(d)
  {
    Padded(d.year, 4) + "-" + Padded(d.month, 2) + "-" + Padded(d.day, 2)
  }

  /** Every real date of those years can be given, and is read as itself. */
  lemma WrittenDatesAreAccepted(d: CalendarDate, name: string)
    requires 100 <= d.year <= 9999 && IsReal(d)
    ensures InFormat(Written(d)) && DateIn(Written(d)) == d
    ensures DueDateFlag(map[name := Text(Written(d))], name) == Ok(Written(d))
  {
    PaddedReadsBack(d.year, 4);
    PaddedReadsBack(d.month, 2);
    PaddedReadsBack(d.day, 2);
    var s := Written(d);
    assert s[..4] == Padded(d.year, 4) && s[5..7] == Padded(d.month, 2) && s[8..] == Padded(d.day, 2);
    AcceptsExactlyRealDates(map[name := Text(s)], name, s);
  }
}
