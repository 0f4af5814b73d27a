/**
 * The proleptic Gregorian calendar as ECMA-262 has it (section 21.4.1): days
 * counted from 1970-01-01, months from 0, dates from 1.
 */
module Calendar {

  predicate Leap(year: int) {
    year % 4 == 0 && (year % 100 != 0 || year % 400 == 0)
  }

  function DaysInYear(year: int): nat {
    if Leap(year) then 366 else 365
  }

  /** How many years divisible by four, by a hundred and by four hundred are between 1970 and a year's start. */
  function Fours(year: int): int {
    (year - 1969) / 4
  }

  function Hundreds(year: int): int {
    (year - 1901) / 100
  }

  function FourHundreds(year: int): int {
    (year - 1601) / 400
  }

  /** The day number of a year's first day; `/` is the floor here, the divisors being positive. */
  function DayFromYear(year: int): int {
    365 * (year - 1970) + Fours(year) - Hundreds(year) + FourHundreds(year)
  }

  lemma YearLength(year: int)
    ensures DayFromYear(year + 1) == DayFromYear(year) + DaysInYear(year)
  {
    hide Fours, Hundreds, FourHundreds;
    FoursAscend(year);
    HundredsAscend(year);
    FourHundredsAscend(year);
  }

  lemma FoursAscend(year: int)
    ensures Fours(year + 1) == Fours(year) + if year % 4 == 0 then 1 else 0
  {}

  lemma HundredsAscend(year: int)
    ensures Hundreds(year + 1) == Hundreds(year) + if year % 100 == 0 then 1 else 0
    ensures year % 100 == 0 ==> year % 4 == 0
  {}

  lemma FourHundredsAscend(year: int)
    ensures FourHundreds(year + 1) == FourHundreds(year) + if year % 400 == 0 then 1 else 0
    ensures year % 400 == 0 ==> year % 100 == 0
  {}

  /** The latest year that has begun by a day, searched from one that has. */
  function YearFrom(day: int, year: int): (found: int)
    requires DayFromYear(year) <= day
    ensures DayFromYear(found) <= day < DayFromYear(found + 1)
    decreases day - DayFromYear(year)
  {
    YearLength(year);
    if day < DayFromYear(year + 1) then year else YearFrom(day, year + 1)
  }

  lemma EarlyEnough(day: int)
    ensures DayFromYear(EarlyYear(day)) <= day
  {}

  function EarlyYear(day: int): int {
    1970 + (if day >= 0 then day / 366 else day / 365)
  }

  function YearOf(day: int): (year: int)
    ensures DayFromYear(year) <= day < DayFromYear(year + 1)
  {
    EarlyEnough(day);
    YearFrom(day, EarlyYear(day))
  }

  lemma {:induction false} YearsAscend(a: int, b: int)
    requires a <= b
    ensures DayFromYear(a) <= DayFromYear(b)
    decreases b - a
  {
    if a < b {
      YearLength(b - 1);
      YearsAscend(a, b - 1);
    }
  }

  /** How many days of a year are before a month. */
  function MonthStart(month: nat, leap: bool): nat
    requires month <= 12
  {
    [0, 31, 59, 90, 120, 151, 181, 212, 243, 273, 304, 334, 365][month] + (if leap && month >= 2 then 1 else 0)
  }

  function DaysInMonth(year: int, month: nat): nat
    requires month < 12
  {
    MonthStart(month + 1, Leap(year)) - MonthStart(month, Leap(year))
  }

  /** The month a day of the year is in, searched from one it is not before. */
  function MonthFrom(within: nat, leap: bool, month: nat): (found: nat)
    requires month < 12 && MonthStart(month, leap) <= within < MonthStart(12, leap)
    ensures found < 12 && MonthStart(found, leap) <= within < MonthStart(found + 1, leap)
    decreases 12 - month
  {
    if within < MonthStart(month + 1, leap) then month else MonthFrom(within, leap, month + 1)
  }

  datatype Civil = Civil(year: int, month: nat, date: int)

  function CivilOf(day: int): (civil: Civil)
    ensures ValidDate(civil)
  {
    var year := YearOf(day);
    YearLength(year);
    var within := day - DayFromYear(year);
    var month := MonthFrom(within, Leap(year), 0);
    Civil(year, month, within - MonthStart(month, Leap(year)) + 1)
  }

  predicate ValidDate(civil: Civil) {
    civil.month < 12 && 1 <= civil.date <= DaysInMonth(civil.year, civil.month)
  }

  /** `MakeDay`: months and dates past their ends run into the next years and months. */
  function MakeDay(year: int, month: int, date: int): int {
    DayFromYear(year + month / 12) + MonthStart(month % 12, Leap(year + month / 12)) + date - 1
  }

  /** The date a day is written as names that day. */
  lemma MakeDayUndoesCivil(day: int)
    ensures var c := CivilOf(day); MakeDay(c.year, c.month, c.date) == day
  {
    var c := CivilOf(day);
    assert c.month / 12 == 0 && c.month % 12 == c.month;
  }

  /** And a date of the calendar is the one its day is written as. */
  lemma CivilUndoesMakeDay(civil: Civil)
    requires ValidDate(civil)
    ensures CivilOf(MakeDay(civil.year, civil.month, civil.date)) == civil
  {
    hide DayFromYear, MonthStart, Leap, YearOf, MonthFrom;
    var leap := Leap(civil.year);
    var within: nat := MonthStart(civil.month, leap) + civil.date - 1;
    var day := DayFromYear(civil.year) + within;
    WithinTheYear(civil);
    YearLength(civil.year);
    OneYear(day, civil.year);
    OneMonth(within, leap, civil.month);
    assert MakeDay(civil.year, civil.month, civil.date) == day by {
      assert civil.month / 12 == 0 && civil.month % 12 == civil.month;
    }
  }

  lemma WithinTheYear(civil: Civil)
    requires ValidDate(civil)
    ensures MonthStart(civil.month, Leap(civil.year)) + civil.date - 1 < MonthStart(civil.month + 1, Leap(civil.year))
         <= MonthStart(12, Leap(civil.year)) == DaysInYear(civil.year)
  {
    MonthsAscend(civil.month + 1, 12, Leap(civil.year));
  }

  lemma OneYear(day: int, year: int)
    requires DayFromYear(year) <= day < DayFromYear(year + 1)
    ensures YearOf(day) == year
  {
    hide DayFromYear;
    if YearOf(day) < year {
      YearsAscend(YearOf(day) + 1, year);
    } else if YearOf(day) > year {
      YearsAscend(year + 1, YearOf(day));
    }
  }

  lemma MonthsAscend(a: nat, b: nat, leap: bool)
    requires a <= b <= 12
    ensures MonthStart(a, leap) <= MonthStart(b, leap)
  {}

  lemma OneMonth(within: nat, leap: bool, month: nat)
    requires month < 12 && MonthStart(month, leap) <= within < MonthStart(month + 1, leap)
    requires within < MonthStart(12, leap)
    ensures MonthFrom(within, leap, 0) == month
  {
    hide MonthStart;
    MonthsAscend(0, month, leap);
    var found := MonthFrom(within, leap, 0);
    if found < month {
      MonthsAscend(found + 1, month, leap);
    } else if found > month {
      MonthsAscend(month + 1, found, leap);
    }
  }

  // ---- the calendar it is ----

  /** Where the count of days starts, and where a leap day has come to since. */
  lemma KnownDays()
    ensures MakeDay(1970, 0, 1) == 0
    ensures MakeDay(2000, 1, 29) == 11016
  {
    assert MonthStart(0, false) == 0 && MonthStart(1, true) == 31;
    hide MonthStart;
    assert DayFromYear(1970) == 0 && DayFromYear(2000) == 10957;
    assert Leap(2000) && !Leap(1970);
  }

  /** A year divisible by a hundred is leap only when it is by four hundred too. */
  lemma LeapYears()
    ensures Leap(2000) && Leap(2024) && !Leap(1900) && !Leap(2023)
  {}

  /** Thirty days have April, June, September and November; February is the one that a leap year lengthens. */
  lemma MonthLengths(year: int, month: nat)
    requires month < 12
    ensures DaysInMonth(year, month)
            == if month in {3, 5, 8, 10} then 30 else if month != 1 then 31 else if Leap(year) then 29 else 28
  {}

  /** A day after a day is the next, after a month's last the next month's first, and after December's January's. */
  lemma DaysFollow(year: int, month: int, date: int)
    ensures MakeDay(year, month, date + 1) == MakeDay(year, month, date) + 1
    ensures MakeDay(year, month + 12, date) == MakeDay(year + 1, month, date)
    ensures 0 <= month < 12 ==> MakeDay(year, month, 1) + DaysInMonth(year, month) == MakeDay(year, month + 1, 1)
  {
    hide DayFromYear;
    assert (month + 12) / 12 == month / 12 + 1 && (month + 12) % 12 == month % 12;
    if 0 <= month < 12 {
      assert month / 12 == 0 && month % 12 == month;
      YearLength(year);
      if month == 11 {
        assert (month + 1) / 12 == 1 && (month + 1) % 12 == 0;
      } else {
        assert (month + 1) / 12 == 0 && (month + 1) % 12 == month + 1;
      }
    }
  }
}
