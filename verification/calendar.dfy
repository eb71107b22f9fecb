/** Civil (proleptic Gregorian) dates as plain integers: the dates the
    civil calendar accepts in years 1..9999, their order and the next day. */
module Calendar {

  datatype Date = Date(year: int, month: int, day: int)

  /** The Gregorian leap-year rule. */
  predicate IsLeap(year: int)
  {
    (year % 4 == 0 && year % 100 != 0) || year % 400 == 0
  }

  /** Month lengths of a common year. */
  const CommonMonthLengths: seq<int> := [31, 28, 31, 30, 31, 30, 31, 31, 30, 31, 30, 31]

  /** Days in `month` of `year`: February has 29 days exactly in leap years. */
  function DaysInMonth(year: int, month: int): (n: int)
    requires 1 <= month <= 12
    ensures 28 <= n <= 31
    ensures month == 2 ==> (n == 29 <==> IsLeap(year))
  {
    if month == 2 && IsLeap(year) then 29 else CommonMonthLengths[month - 1]
  }

  /** The valid civil dates of years 1..9999. */
  predicate ValidDate(d: Date)
  {
    1 <= d.year <= 9999 && 1 <= d.month <= 12 && 1 <= d.day <= DaysInMonth(d.year, d.month)
  }

  /** Chronological order on valid dates: lexicographic on (year, month, day). */
  predicate Before(a: Date, b: Date)
  {
    a.year < b.year
    || (a.year == b.year && a.month < b.month)
    || (a.year == b.year && a.month == b.month && a.day < b.day)
  }

  /** The following calendar day: a valid later date, in the same year
      except after December 31. `NextDayIsNext` shows no valid date lies
      strictly between the two. */
  function NextDay(d: Date): (r: Date)
    requires ValidDate(d) && d.year < 9999
    ensures ValidDate(r) && Before(d, r)
    ensures r.year == d.year <==> !(d.month == 12 && d.day == 31)
    ensures r.year != d.year ==> r == Date(d.year + 1, 1, 1)
  {
    if d.day < DaysInMonth(d.year, d.month) then Date(d.year, d.month, d.day + 1)
    else if d.month < 12 then Date(d.year, d.month + 1, 1)
    else Date(d.year + 1, 1, 1)
  }

  /** Every valid date after `d` is its next day or comes after that. */
  lemma NextDayIsNext(d: Date, x: Date)
    requires ValidDate(d) && d.year < 9999 && ValidDate(x) && Before(d, x)
    ensures x == NextDay(d) || Before(NextDay(d), x)
  {
  }
}
