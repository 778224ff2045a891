/**
 * Calendar dates of the proleptic Gregorian calendar, the part of a
 * JavaScript `Date` the period ranges depend on. Months are 1-based here;
 * `MakeDate` takes the 0-based month index of `new Date(year, monthIndex, day)`.
 */
module Calendar {

  datatype Date = Date(year: int, month: int, day: int)

  predicate IsLeapYear(y: int)
  {
    y % 4 == 0 && (y % 100 != 0 || y % 400 == 0)
  }

  function DaysInMonth(y: int, m: int): (n: int)
    requires 1 <= m <= 12
    ensures 28 <= n <= 31
    ensures m == 2 ==> (n == 29 <==> IsLeapYear(y))
  {
    if m == 2 then (if IsLeapYear(y) then 29 else 28)
    else if m == 4 || m == 6 || m == 9 || m == 11 then 30
    else 31
  }

  predicate ValidDate(d: Date)
  {
    1 <= d.month <= 12 && 1 <= d.day <= DaysInMonth(d.year, d.month)
  }

  /** Chronological order: by year, then month, then day. */
  predicate DateLe(a: Date, b: Date)
  {
    a.year < b.year
    || (a.year == b.year && (a.month < b.month || (a.month == b.month && a.day <= b.day)))
  }

  predicate DateLt(a: Date, b: Date)
  {
    DateLe(a, b) && a != b
  }

  /** The calendar day after `d`. */
  function NextDay(d: Date): (n: Date)
    requires ValidDate(d)
    ensures ValidDate(n) && DateLt(d, n)
    ensures forall x | ValidDate(x) && DateLt(d, x) :: DateLe(n, x)
  {
    if d.day < DaysInMonth(d.year, d.month) then Date(d.year, d.month, d.day + 1)
    else if d.month < 12 then Date(d.year, d.month + 1, 1)
    else Date(d.year + 1, 1, 1)
  }

  /** The year a month index lands in (index 12 is January of the next year). */
  function NormalYear(year: int, monthIndex: int): int
  {
    if monthIndex == 12 then year + 1 else year
  }

  /** The 1-based month a month index in 0..12 stands for. */
  function NormalMonth(monthIndex: int): int
    requires 0 <= monthIndex <= 12
  {
    if monthIndex == 12 then 1 else monthIndex + 1
  }

  /** The year `new Date` takes a year argument for: 0..99 stand for 1900..1999. */
  function FullYear(year: int): int
  {
    if 0 <= year <= 99 then 1900 + year else year
  }

  /**
   * `new Date(year, monthIndex, day)` for a month index in 0..12 and a day
   * from 0 to the length of that month: a year in 0..99 is read as 1900 + year,
   * index 12 rolls over into January of the next year, and day 0 is the last
   * day of the month before.
   */
  function MakeDate(year: int, monthIndex: int, day: int): (d: Date)
    requires 0 <= monthIndex <= 12
    requires 0 <= day <= DaysInMonth(NormalYear(FullYear(year), monthIndex), NormalMonth(monthIndex))
    ensures ValidDate(d)
    ensures day >= 1 ==> d == Date(NormalYear(FullYear(year), monthIndex), NormalMonth(monthIndex), day)
    ensures day == 0 ==> NextDay(d) == Date(NormalYear(FullYear(year), monthIndex), NormalMonth(monthIndex), 1)
  {
    var y, m := NormalYear(FullYear(year), monthIndex), NormalMonth(monthIndex);
    if day >= 1 then Date(y, m, day)
    else if m == 1 then Date(y - 1, 12, 31)
    else Date(y, m - 1, DaysInMonth(y, m - 1))
  }

  /** Day 0 of the month after month `m` is the last day of `m` (the end of a monthly range). */
  lemma DayZeroIsLastDay(y: int, m: int)
    requires 1 <= m <= 12
    ensures MakeDate(y, m, 0) == Date(FullYear(y), m, DaysInMonth(FullYear(y), m))
  {
  }

  /** An inclusive range of calendar days. */
  datatype DateRange = DateRange(start: Date, end: Date)

  predicate InRange(r: DateRange, d: Date)
  {
    DateLe(r.start, d) && DateLe(d, r.end)
  }

  /** The whole of month `m` of year `y`. */
  function MonthRange(y: int, m: int): DateRange
    requires 1 <= m <= 12
  {
    DateRange(Date(y, m, 1), Date(y, m, DaysInMonth(y, m)))
  }

  /** A valid date lies in a month's range exactly when it has that year and month. */
  lemma InMonthRange(y: int, m: int, d: Date)
    requires 1 <= m <= 12 && ValidDate(d)
    ensures InRange(MonthRange(y, m), d) <==> d.year == y && d.month == m
  {
  }

  /** A valid date lies in `first..last` months of year `y` exactly when it has that year and a month in between. */
  lemma InMonthsRange(y: int, first: int, last: int, d: Date)
    requires 1 <= first <= last <= 12 && ValidDate(d)
    ensures InRange(DateRange(Date(y, first, 1), Date(y, last, DaysInMonth(y, last))), d)
            <==> d.year == y && first <= d.month <= last
  {
  }
}
