/** The Four-Pillars calculator: year, month, day and hour stem/branch
    pairs for a civil date and time. */
module SiZhu {

  import opened Options
  import opened Constants
  import opened Cycle
  import opened Calendar
  import opened SolarTerms

  /** The one failure of the calculator: the day formula only covers
      1901..2100. */
  datatype Error = YearOutOfRange(year: int)

  datatype FourPillars = FourPillars(year: Pillar, month: Pillar, day: Pillar, hour: Pillar)

  const FirstDayYear := 1901
  const LastDayYear := 2100

  // ---------------------------------------------------------------------
  // Hour

  /** The two-hour window number `(hour + 1) // 2` with 0 read as 12, used
      by the solar-time correction to decide whether to keep its result. */
  function Window(hour: int): (w: int)
    ensures 0 <= hour < 24 ==> 1 <= w <= 12 && Wrap(w + 1, 12) == HourBranch(hour)
  {
    var w := (hour + 1) / 2;
    if w == 0 then 12 else w
  }

  /** The branch of an hour: 23 and 0 are Zi (1), 1-2 are Chou (2), and so
      on up to 21-22 for Hai (12); any other value defaults to Zi. */
  function HourBranch(hour: int): (b: Branch)
    ensures 0 <= hour < 24 ==> b == Wrap((hour + 1) / 2 + 1, 12)
    ensures !(0 <= hour < 24) ==> b == Zi
  {
    if hour == 23 || hour == 0 then 1
    else if 1 <= hour <= 2 then 2
    else if 3 <= hour <= 4 then 3
    else if 5 <= hour <= 6 then 4
    else if 7 <= hour <= 8 then 5
    else if 9 <= hour <= 10 then 6
    else if 11 <= hour <= 12 then 7
    else if 13 <= hour <= 14 then 8
    else if 15 <= hour <= 16 then 9
    else if 17 <= hour <= 18 then 10
    else if 19 <= hour <= 20 then 11
    else if 21 <= hour <= 22 then 12
    else 1
  }

  /** The simplified true-solar-time hour: fifteen minutes earlier, but the
      original hour is kept whenever the shift would change the two-hour
      window. For a clock hour 0..23 the result is the same hour or the one
      before it, and it always has the same branch. */
  function TrueSolarHour(hour: int, minute: int): (r: int)
    ensures 0 <= hour < 24 ==> r == hour || r == (hour + 23) % 24
    ensures 0 <= hour < 24 ==> HourBranch(r) == HourBranch(hour)
  {
    var adjustedMinute := minute - 15;
    var h1 := if adjustedMinute < 0 then hour - 1 else hour;
    var adjusted := if h1 < 0 then h1 + 24 else h1;
    if Window(hour) != Window(adjusted) then hour else adjusted
  }

  /** Five-rat escapement: the stem of the Zi hour for each day stem. */
  const FiveRatTable: seq<Stem> := [Jia, Bing, Wu, Geng, Ren, Jia, Bing, Wu, Geng, Ren]

  function FiveRat(dayStem: Stem): (s: Stem)
    ensures s == Wrap(2 * dayStem - 1, 10)
    ensures s % 2 == 1
  {
    FiveRatTable[dayStem - 1]
  }

  /** The hour pillar: branch from the hour's window, stem counted on from
      the five-rat start stem. */
  function HourPillar(dayStem: Stem, trueHour: int): (p: Pillar)
    ensures p.branch == HourBranch(trueHour)
    ensures ValidPair(p)
    ensures p.branch == Zi ==> p.stem == FiveRat(dayStem)
  {
    var branch := HourBranch(trueHour);
    var f := FiveRat(dayStem);
    HourStem(f, branch);
    Pillar(Wrap(f + branch - 1, 10), branch)
  }

  /** Counting on from an odd start stem keeps the branch's parity, and the
      first branch gets the start stem itself. */
  lemma HourStem(f: Stem, branch: Branch)
    requires f % 2 == 1
    ensures Wrap(f + branch - 1, 10) % 2 == branch % 2
    ensures branch == Zi ==> Wrap(f + branch - 1, 10) == f
  {
    WrapParity(f + branch - 1);
    AddEven(branch, (f - 1) / 2);
    if branch == Zi {
      WrapCongruent(f, f, 10);
    }
  }

  // ---------------------------------------------------------------------
  // Year

  /** The year the pillar is counted from: the previous year before the
      Start of Spring (February 4), the civil year from then on. */
  function EffectiveYear(d: Date): (y: int)
    requires ValidDate(d)
    ensures y == (if d.month == 1 || (d.month == 2 && d.day < 4) then d.year - 1 else d.year)
  {
    if Before(d, TermDate(d.year, 0)) then d.year - 1 else d.year
  }

  /** The year pillar: entry `effective year - 3` of the sixty-pair cycle. */
  function YearPillar(d: Date): (p: Pillar)
    requires ValidDate(d)
    ensures ValidPair(p)
    ensures IndexOf(p) == Wrap(EffectiveYear(d) - 3, 60)
  {
    var y := EffectiveYear(d);
    IndexOfPairAt(y - 3);
    Pillar(Wrap(y - 3, 10), Wrap(y - 3, 12))
  }

  // ---------------------------------------------------------------------
  // Month

  /** Five-tiger escapement: the stem of the Yin month for each year stem. */
  const FiveTigerTable: seq<Stem> := [Bing, Wu, Geng, Ren, Jia, Bing, Wu, Geng, Ren, Jia]

  function FiveTiger(yearStem: Stem): (s: Stem)
    ensures s == Wrap(2 * yearStem + 1, 10)
    ensures s % 2 == 1
  {
    FiveTigerTable[yearStem - 1]
  }

  /** The month branch of a solar term: two terms per month, terms 0 and 1
      giving Yin (3). */
  function MonthBranch(t: TermIndex): (b: Branch)
    ensures b == Yin <==> t <= 1
  {
    Wrap(t / 2 + 3, 12)
  }

  /** The month stem: the five-tiger start stem advanced by the distance of
      the month branch from Yin. */
  function MonthStem(yearStem: Stem, branch: Branch): (s: Stem)
    ensures branch == Yin ==> s == FiveTiger(yearStem)
    ensures s % 2 == branch % 2
  {
    var f := FiveTiger(yearStem);
    MonthStemFrom(f, branch);
    Wrap(f + (branch - Yin) % 12, 10)
  }

  /** Counting on from an odd start stem by the distance from Yin keeps the
      branch's parity, and Yin itself gets the start stem. */
  lemma MonthStemFrom(f: Stem, branch: Branch)
    requires f % 2 == 1
    ensures Wrap(f + (branch - Yin) % 12, 10) % 2 == branch % 2
    ensures branch == Yin ==> Wrap(f + (branch - Yin) % 12, 10) == f
  {
    var distance := (branch - Yin) % 12;
    SmallMod(branch - Yin, 12);
    WrapParity(f + distance);
    AddEven(branch, if branch >= Yin then (f - 3) / 2 else (f + 9) / 2);
    if branch == Yin {
      WrapCongruent(f, f, 10);
    }
  }

  /** The month pillar of a date, given the stem of its year pillar. */
  function MonthPillar(d: Date, yearStem: Stem): (p: Pillar)
    ensures ValidPair(p)
    ensures p.branch == MonthBranch(CurrentTerm(d))
    ensures p.branch == Yin ==> p.stem == FiveTiger(yearStem)
  {
    var branch := MonthBranch(CurrentTerm(d));
    Pillar(MonthStem(yearStem, branch), branch)
  }

  // ---------------------------------------------------------------------
  // Day

  /** Cumulative month lengths of a common year. */
  const CommonDaysBefore: seq<int> := [0, 31, 59, 90, 120, 151, 181, 212, 243, 273, 304, 334, 365]

  /** Days in the months before `month`, summed month by month. */
  function DaysBefore(year: int, month: int): (n: int)
    requires 1 <= month <= 13
    ensures n == CommonDaysBefore[month - 1] + (if month > 2 && IsLeap(year) then 1 else 0)
  {
    if month == 1 then 0 else DaysBefore(year, month - 1) + DaysInMonth(year, month - 1)
  }

  /** Day of the year, 1 for January 1. */
  function DayOfYear(d: Date): (n: int)
    requires ValidDate(d)
    ensures 1 <= n <= (if IsLeap(d.year) then 366 else 365)
  {
    DaysBefore(d.year, d.month) + d.day
  }

  /** The raw day count before reduction modulo 60: `yy` is the year's last
      two digits, and `(yy - 1) // 4` is floor division, so `yy = 0` (years
      2000 and 2100) contributes -1. Years up to 2000 add 15. */
  function DayCount(year: int, dayOfYear: int): int
  {
    var yy := year % 100;
    if 1901 <= year <= 2000 then (yy - 1) * 5 + (yy - 1) / 4 + dayOfYear + 15
    else (yy - 1) * 5 + (yy - 1) / 4 + dayOfYear
  }

  /** The count's `5` per year is a common year's 365 days modulo 60: up to
      a multiple of 60, the count is the number of days since the start of
      the century's year 1, with one leap day every four years, plus the day
      of the year and the 20th-century offset of 15. */
  lemma DayCountElapsed(year: int, dayOfYear: int)
    ensures var yy := year % 100;
      DayCount(year, dayOfYear) % 60
        == (365 * (yy - 1) + (yy - 1) / 4 + dayOfYear + (if 1901 <= year <= 2000 then 15 else 0)) % 60
  {
    var yy := year % 100;
    var rest := (yy - 1) / 4 + dayOfYear + (if 1901 <= year <= 2000 then 15 else 0);
    assert DayCount(year, dayOfYear) == (yy - 1) * 5 + rest;
    assert 365 * (yy - 1) + rest == ((yy - 1) * 5 + rest) + 60 * (6 * (yy - 1));
    AddMultiple((yy - 1) * 5 + rest, 6 * (yy - 1), 60);
  }

  /** The day's position 1..60 in the sixty-pair cycle. */
  function DayIndex(d: Date): (n: int)
    requires ValidDate(d)
    ensures 1 <= n <= 60
  {
    Wrap(DayCount(d.year, DayOfYear(d)), 60)
  }

  /** The day pillar; years outside 1901..2100 are rejected. */
  function DayPillar(d: Date): (r: Result<Pillar, Error>)
    requires ValidDate(d)
    ensures r.Err? <==> !(FirstDayYear <= d.year <= LastDayYear)
    ensures r.Err? ==> r.error == YearOutOfRange(d.year)
    ensures r.Ok? ==> ValidPair(r.value) && IndexOf(r.value) == DayIndex(d)
  {
    if !(FirstDayYear <= d.year <= LastDayYear) then Err(YearOutOfRange(d.year))
    else
      var n := DayIndex(d);
      IndexOfPairAt(n);
      WrapCongruent(n, n, 60);
      Ok(Pillar(Wrap(n, 10), Wrap(n, 12)))
  }

  // ---------------------------------------------------------------------
  // All four

  /** The four pillars of a civil date and time, failing exactly when the
      day pillar does. */
  function FourPillarsOf(d: Date, hour: int, minute: int): (r: Result<FourPillars, Error>)
    requires ValidDate(d)
    ensures r.Err? <==> !(FirstDayYear <= d.year <= LastDayYear)
    ensures r.Ok? ==> r.value.year == YearPillar(d) && Ok(r.value.day) == DayPillar(d)
    ensures r.Ok? ==> r.value.month == MonthPillar(d, r.value.year.stem)
    ensures r.Ok? ==> r.value.hour == HourPillar(r.value.day.stem, TrueSolarHour(hour, minute))
  {
    var trueHour := TrueSolarHour(hour, minute);
    var year := YearPillar(d);
    var month := MonthPillar(d, year.stem);
    match DayPillar(d)
    case Err(e) => Err(e)
    case Ok(day) => Ok(FourPillars(year, month, day, HourPillar(day.stem, trueHour)))
  }

  // ---------------------------------------------------------------------
  // Properties

  /** The year pillar turns at the Start of Spring: 1984-03-01 is Jia-Zi,
      while 1984-01-01 still belongs to 1983, Gui-Hai. */
  lemma YearPillarExamples()
    ensures YearPillar(Date(1984, 3, 1)) == Pillar(Jia, Zi)
    ensures EffectiveYear(Date(1984, 1, 1)) == 1983
    ensures YearPillar(Date(1984, 1, 1)) == Pillar(Gui, 12)
  {
  }

  /** The escapement tables repeat with period five: stems s and s + 5
      start their months (five-tiger) and hours (five-rat) alike. */
  lemma EscapementsRepeat(s: Stem)
    requires s <= 5
    ensures FiveTiger(s) == FiveTiger(s + 5)
    ensures FiveRat(s) == FiveRat(s + 5)
  {
  }

  /** Each month branch covers two consecutive terms, starting with Yin for
      terms 0 and 1 and advancing one branch per pair. */
  lemma MonthBranchSteps(t: TermIndex)
    requires t <= 21
    ensures MonthBranch(0) == Yin && MonthBranch(1) == Yin
    ensures t % 2 == 0 ==> MonthBranch(t + 1) == MonthBranch(t)
    ensures MonthBranch(t + 2) == Wrap(MonthBranch(t) + 1, 12)
  {
    WrapShift(t / 2 + 3, 1, 12);
    assert (t + 2) / 2 == t / 2 + 1;
  }

  /** The months of a year continue its place in the sixty-pair cycle: for
      the year pillar numbered n, the month with branch b is pair
      12 * (n - 1) + 3 + (b - 3) mod 12, so the Yin month of Jia-Zi year is
      Bing-Yin. */
  lemma MonthPillarContinuesYear(yp: Pillar, b: Branch)
    requires ValidPair(yp)
    ensures Pillar(MonthStem(yp.stem, b), b) == PairAt(12 * (IndexOf(yp) - 1) + 3 + (b - 3) % 12)
  {
    var n := IndexOf(yp);
    var k := (b - 3) % 12;
    SmallMod(b - 3, 12);
    ContinuedBranch(n, b, k);
    ContinuedMonthStem(n, yp.stem, k);
  }

  /** The branch of pair 12 * (n - 1) + 3 + k is b when 3 + k is b or b + 12. */
  lemma ContinuedBranch(n: int, b: Branch, k: int)
    requires k == (if b >= 3 then b - 3 else b + 9)
    ensures Wrap(12 * (n - 1) + 3 + k, 12) == b
  {
    AddMultiple(3 + k, n - 1, 12);
    if b < 3 {
      AddMultiple(b, 1, 12);
    }
    WrapCongruent(12 * (n - 1) + 3 + k, b, 12);
  }

  /** The stem of pair 12 * (n - 1) + 3 + k, when n is congruent to the year
      stem s modulo 10, is the five-tiger stem of s advanced by k. */
  lemma ContinuedMonthStem(n: int, s: Stem, k: int)
    requires n % 10 == s % 10 && 0 <= k < 12
    ensures Wrap(12 * (n - 1) + 3 + k, 10) == Wrap(FiveTiger(s) + k, 10)
  {
    var big := 12 * (n - 1) + 3 + k;
    DiffMod(n, s, 10);
    var t := (n - s) / 10;
    assert n == s + 10 * t;
    assert big == (2 * s + 1 + k) + 10 * (s + 12 * t - 1);
    AddMultiple(2 * s + 1 + k, s + 12 * t - 1, 10);
    WrapShift(2 * s + 1, k, 10);
    WrapEquiv(big, 2 * s + 1 + k, 10);
  }

  /** The hours of a day continue its place in the sixty-pair cycle: for the
      day pillar numbered n, the hour with branch b is pair 12 * (n - 1) + b,
      so the Zi hour of a Jia-Zi day is Jia-Zi. */
  lemma HourPillarContinuesDay(dp: Pillar, hour: int)
    requires ValidPair(dp)
    ensures HourPillar(dp.stem, hour) == PairAt(12 * (IndexOf(dp) - 1) + HourBranch(hour))
  {
    var n := IndexOf(dp);
    var s: int := dp.stem;
    var b: int := HourBranch(hour);
    var big := 12 * (n - 1) + b;
    AddMultiple(b, n - 1, 12);
    WrapCongruent(big, b, 12);
    assert Wrap(n, 10) == s;
    DiffMod(n, s, 10);
    var t := (n - s) / 10;
    assert n == s + 10 * t;
    assert big == (2 * s - 1 + b - 1) + 10 * (s + 12 * t - 1);
    AddMultiple(2 * s - 1 + b - 1, s + 12 * t - 1, 10);
    WrapShift(2 * s - 1, b - 1, 10);
    WrapEquiv(big, 2 * s - 1 + b - 1, 10);
  }

  /** The Gregorian rule: 2000 is a leap year, 1900 and 2100 are not, and
      March 1 is day 61 exactly in leap years. */
  lemma LeapRule(y: int)
    requires 1 <= y <= 9999
    ensures IsLeap(2000) && !IsLeap(1900) && !IsLeap(2100) && IsLeap(2024)
    ensures DayOfYear(Date(y, 3, 1)) == 61 <==> IsLeap(y)
    ensures DayOfYear(Date(y, 12, 31)) == (if IsLeap(y) then 366 else 365)
  {
  }

  /** The supported range is inclusive at both ends. */
  lemma DayPillarBoundaries()
    ensures DayPillar(Date(1900, 12, 31)) == Err(YearOutOfRange(1900))
    ensures DayPillar(Date(2101, 1, 1)) == Err(YearOutOfRange(2101))
    ensures DayPillar(Date(1901, 1, 1)).Ok? && DayPillar(Date(2100, 12, 31)).Ok?
  {
  }

  /** Known anchors: 1901-01-01 is Ji-Mao (pair 16), 2001-01-01 is Jia-Zi
      (pair 1). */
  lemma DayPillarAnchors()
    ensures DayPillar(Date(1901, 1, 1)) == Ok(Pillar(Ji, 4))
    ensures DayPillar(Date(2001, 1, 1)) == Ok(Pillar(Jia, Zi))
  {
    AnchorIndex(Date(1901, 1, 1), 16);
    AnchorIndex(Date(2001, 1, 1), 1);
  }

  lemma AnchorIndex(d: Date, n: int)
    requires ValidDate(d) && FirstDayYear <= d.year <= LastDayYear
    requires 1 <= n <= 60 && DayCount(d.year, DayOfYear(d)) == n
    ensures DayPillar(d) == Ok(PairAt(n))
  {
    WrapCongruent(n, n, 60);
  }

  /** Within a year the day of the year counts up by one. */
  lemma DayOfYearNext(d: Date)
    requires ValidDate(d) && d.year < 9999 && NextDay(d).year == d.year
    ensures DayOfYear(NextDay(d)) == DayOfYear(d) + 1
  {
  }

  /** Consecutive days advance the day pillar by one place in the sixty-pair
      cycle, except across exactly three year ends: into 2000, out of 2000
      and into 2100. There the formula's `yy = 0` (for 2000, together with
      its "up to 2000" offset) breaks the count; for example 1999-12-31 is
      pair 54 but 2000-01-01 comes out as pair 10, not 55. */
  lemma DayIndexNext(d: Date)
    requires ValidDate(d) && FirstDayYear <= d.year && d.year < 9999 && NextDay(d).year <= LastDayYear
    ensures DayIndex(NextDay(d)) == Wrap(DayIndex(d) + 1, 60)
        <==> !(d.month == 12 && d.day == 31 && (d.year == 1999 || d.year == 2000 || d.year == 2099))
  {
    if d.month == 12 && d.day == 31 {
      DayIndexAtYearEnd(d);
    } else {
      DayIndexWithinYear(d);
    }
  }

  lemma DayIndexAtYearEnd(d: Date)
    requires ValidDate(d) && FirstDayYear <= d.year && d.year < 9999 && NextDay(d).year <= LastDayYear
    requires d.month == 12 && d.day == 31
    ensures DayIndex(NextDay(d)) == Wrap(DayIndex(d) + 1, 60)
        <==> !(d.year == 1999 || d.year == 2000 || d.year == 2099)
  {
    assert d == Date(d.year, 12, 31);
    YearEndStep(d.year);
  }

  /** Across the end of year `y` the cycle advances by one exactly when `y`
      is not 1999, 2000 or 2099. */
  lemma YearEndStep(y: int)
    requires 1901 <= y <= 2099
    ensures DayIndex(Date(y + 1, 1, 1)) == Wrap(DayIndex(Date(y, 12, 31)) + 1, 60)
        <==> !(y == 1999 || y == 2000 || y == 2099)
  {
    if y == 1999 || y == 2000 || y == 2099 {
      DayIndexJumps();
      assert Wrap(54 + 1, 60) == 55 && Wrap(15 + 1, 60) == 16 && Wrap(39 + 1, 60) == 40;
    } else {
      OrdinaryYearEnd(y);
    }
  }

  lemma DayIndexWithinYear(d: Date)
    requires ValidDate(d) && d.year < 9999 && NextDay(d).year == d.year
    ensures DayIndex(NextDay(d)) == Wrap(DayIndex(d) + 1, 60)
  {
    var c := DayCount(d.year, DayOfYear(d));
    WrapShift(c, 1, 60);
    DayOfYearNext(d);
    assert DayCount(d.year, DayOfYear(NextDay(d))) == c + 1;
  }

  /** The three year ends where the day count jumps. */
  lemma DayIndexJumps()
    ensures DayIndex(Date(1999, 12, 31)) == 54 && DayIndex(Date(2000, 1, 1)) == 10
    ensures DayIndex(Date(2000, 12, 31)) == 15 && DayIndex(Date(2001, 1, 1)) == 1
    ensures DayIndex(Date(2099, 12, 31)) == 39 && DayIndex(Date(2100, 1, 1)) == 55
  {
    LeapRule(1999);
    LeapRule(2000);
    LeapRule(2099);
    assert DayCount(1999, 365) == 894;
    assert DayCount(2000, 1) == 10;
    assert DayCount(2000, 366) == 375;
    assert DayCount(2001, 1) == 1;
    assert DayCount(2099, 365) == 879;
    assert DayCount(2100, 1) == -5;
  }

  lemma OrdinaryYearEnd(y: int)
    requires 1901 <= y <= 2098 && y != 1999 && y != 2000
    ensures DayIndex(Date(y + 1, 1, 1)) == Wrap(DayIndex(Date(y, 12, 31)) + 1, 60)
  {
    LeapRule(y);
    LeapRule(y + 1);
    var c := DayCount(y, DayOfYear(Date(y, 12, 31)));
    WrapShift(c, 1, 60);
    YearStep(y);
    assert DayOfYear(Date(y + 1, 1, 1)) == 1;
    AddMultiple(c + 1, -6, 60);
    WrapEquiv(DayCount(y + 1, 1), c + 1, 60);
  }

  /** Across an ordinary year end the raw count grows by 365 or 366 days
      minus one for January 1, which is one more modulo 60. */
  lemma YearStep(y: int)
    requires 1901 <= y <= 2098 && y != 1999 && y != 2000
    ensures DayCount(y + 1, 1) == DayCount(y, if IsLeap(y) then 366 else 365) + 1 - 360
  {
    var base := if y < 2000 then 1900 else 2000;
    var yy := y - base;
    assert 1 <= yy <= 98;
    ModUnique(y, base / 100, yy, 100);
    ModUnique(y + 1, base / 100, yy + 1, 100);
    // Leap years among them are exactly those with yy divisible by 4.
    AddMultiple(yy, base / 4, 4);
    assert y % 4 == yy % 4;
    if y % 400 == 0 {
      ModUnique(y, 4 * (y / 400), 0, 100);
    }
    assert IsLeap(y) <==> yy % 4 == 0;
    QuarterStep(yy - 1);
  }

  /** `n // 4` grows by one exactly when `n + 1` is a multiple of 4. */
  lemma QuarterStep(n: int)
    ensures (n + 1) / 4 - n / 4 == (if (n + 1) % 4 == 0 then 1 else 0)
  {
  }
}
