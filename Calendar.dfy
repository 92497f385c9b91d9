/** Calendar dates as the DateOnly constructor accepts them: the proleptic
    Gregorian calendar, years 1 to 9999. */
module Calendar {
  import opened Optional

  datatype Date = Date(year: int, month: int, day: int)

  /** Gregorian leap years: every fourth year, except century years that are
      not multiples of 400. */
  predicate IsLeapYear(year: int) {
    year % 4 == 0 && (year % 100 != 0 || year % 400 == 0)
  }

  /** The length of a month: February has 29 days exactly in leap years,
      April, June, September and November have 30, the rest 31. */
  function DaysInMonth(year: int, month: int): (n: int)
    requires 1 <= month <= 12
    ensures 28 <= n <= 31
  {
    if month == 2 then (if IsLeapYear(year) then 29 else 28)
    else if month == 4 || month == 6 || month == 9 || month == 11 then 30
    else 31
  }

  /** The days before the first of each month, in a common year and in a leap
      year: the cumulative tables a day-number calendar is built on. */
  const DaysToMonth365: seq<int> := [0, 31, 59, 90, 120, 151, 181, 212, 243, 273, 304, 334, 365]
  const DaysToMonth366: seq<int> := [0, 31, 60, 91, 121, 152, 182, 213, 244, 274, 305, 335, 366]

  /** The number of days in the months of `year` before `month`. */
  function DaysBeforeMonth(year: int, month: int): (n: int)
    requires 1 <= month <= 13
    ensures 0 <= n <= 31 * (month - 1)
  {
    if month == 1 then 0 else DaysBeforeMonth(year, month - 1) + DaysInMonth(year, month - 1)
  }

  /** The month lengths agree with the cumulative tables, and a year has 365
      days, or 366 in a leap year. */
  lemma {:induction false} DaysBeforeMonthMatchesTable(year: int, month: int)
    requires 1 <= month <= 13
    ensures DaysBeforeMonth(year, month)
      == (if IsLeapYear(year) then DaysToMonth366 else DaysToMonth365)[month - 1]
  {
    if month > 1 {
      DaysBeforeMonthMatchesTable(year, month - 1);
    }
  }

  /** A real date: a year DateOnly supports, a month of the year and a day of
      that month. */
  predicate IsValidDate(date: Date) {
    && 1 <= date.year <= 9999
    && 1 <= date.month <= 12
    && 1 <= date.day <= DaysInMonth(date.year, date.month)
  }

  /** `new DateOnly(year, month, day)`: the date, or None where the
      constructor throws ArgumentOutOfRangeException. */
  function NewDateOnly(year: int, month: int, day: int): (r: Option<Date>)
    ensures r.Some? <==> IsValidDate(Date(year, month, day))
    ensures r.Some? ==> r.value.year == year && r.value.month == month && r.value.day == day
  {
    if 1 <= year <= 9999 && 1 <= month <= 12 && 1 <= day <= DaysInMonth(year, month)
    then Some(Date(year, month, day))
    else None
  }

  /** The 29th of February exists exactly in leap years. */
  lemma LeapDay(year: int)
    requires 1 <= year <= 9999
    ensures IsValidDate(Date(year, 2, 29)) <==> IsLeapYear(year)
  {
  }

  /** 1900 is a century year and not a leap year; 2000 is a leap year. */
  lemma CenturyLeapYears()
    ensures !IsLeapYear(1900) && IsLeapYear(2000) && !IsLeapYear(1800)
  {
  }
}
