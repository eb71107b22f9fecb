/** The pure helpers of the lunar converter: the sexagenary label of a year
    with its zodiac animal, and the branch name of a clock hour. */
module Lunar {

  import opened Constants
  import opened Cycle
  import opened Calendar
  import opened SiZhu

  /** The converter's own copies of the stem and branch names. */
  const TianGan: seq<string> := ["甲", "乙", "丙", "丁", "戊", "己", "庚", "辛", "壬", "癸"]
  const DiZhi: seq<string> := ["子", "丑", "寅", "卯", "辰", "巳", "午", "未", "申", "酉", "戌", "亥"]

  /** The zodiac animals, in branch order. */
  const Zodiac: seq<string> := ["鼠", "牛", "虎", "兔", "龙", "蛇", "马", "羊", "猴", "鸡", "狗", "猪"]

  /** The branch name of each clock hour: 23 and 0 are Zi, then two hours
      per branch. */
  const ShiChen: map<int, string> := map[
    23 := "子", 0 := "子", 1 := "丑", 2 := "丑", 3 := "寅", 4 := "寅",
    5 := "卯", 6 := "卯", 7 := "辰", 8 := "辰", 9 := "巳", 10 := "巳",
    11 := "午", 12 := "午", 13 := "未", 14 := "未", 15 := "申", 16 := "申",
    17 := "酉", 18 := "酉", 19 := "戌", 20 := "戌", 21 := "亥", 22 := "亥"]

  /** What an hour outside the table is called. */
  const UnknownHour := "未知时"

  /** The zodiac animal of a branch. */
  function ZodiacName(b: Branch): string { Zodiac[b - 1] }

  /** The label of a year, e.g. "甲子年(鼠年)": stem and branch at
      `(year - 4) mod 10` and `(year - 4) mod 12`, and the animal at the
      branch's index. Both remainders are valid indices for every year. */
  function LunarYear(year: int): (r: string)
    ensures |r| == 7 && r[2..4] == "年(" && r[5..] == "年)"
  {
    var gan := (year - 4) % 10;
    var zhi := (year - 4) % 12;
    EntriesAreOneCharacter(gan, zhi);
    TianGan[gan] + DiZhi[zhi] + "年(" + Zodiac[zhi] + "年)"
  }

  /** Every entry of the converter's three tables is a single character. */
  lemma EntriesAreOneCharacter(gan: int, zhi: int)
    requires 0 <= gan < 10 && 0 <= zhi < 12
    ensures |TianGan[gan]| == 1 && |DiZhi[zhi]| == 1 && |Zodiac[zhi]| == 1
  {
    assert gan in {0, 1, 2, 3, 4, 5, 6, 7, 8, 9};
    assert zhi in {0, 1, 2, 3, 4, 5, 6, 7, 8, 9, 10, 11};
  }

  /** The branch name of an hour, or "未知时" for an hour not in the table. */
  function DizhiShi(hour: int): (r: string)
    ensures r == UnknownHour <==> !(0 <= hour < 24)
  {
    ShiChenDomain(hour);
    if hour in ShiChen then
      ShiChenValue(hour);
      NamesAreOneCharacter(1, HourBranch(hour));
      ShiChen[hour]
    else UnknownHour
  }

  // ---------------------------------------------------------------------
  // The year label

  /** The converter's tables are the engine's stem and branch names. */
  lemma TablesAgree()
    ensures TianGan == StemNames && DiZhi == BranchNames
    ensures |Zodiac| == 12
  {
  }

  /** A 0-based remainder is one less than the 1-based wrap of the next
      number. */
  lemma ShiftedWrap(n: int, k: int)
    requires k > 0
    ensures n % k + 1 == Wrap(n + 1, k)
  {
    var m := n % k;
    var q := n / k;
    assert n == k * q + m;
    AddMultiple(m + 1, q, k);
    assert n + 1 == (m + 1) + k * q;
    WrapCongruent(n + 1, m + 1, k);
  }

  /** The label names the stem, branch and animal of the year-pillar
      formula `(year - 3)` with a zero remainder read as the last entry. */
  lemma LunarYearNames(year: int)
    ensures LunarYear(year) ==
      StemName(Wrap(year - 3, 10)) + BranchName(Wrap(year - 3, 12))
      + "年(" + ZodiacName(Wrap(year - 3, 12)) + "年)"
  {
    ShiftedWrap(year - 4, 10);
    ShiftedWrap(year - 4, 12);
    TablesAgree();
  }

  /** For a date, the label of its pillar year carries the year pillar's
      own stem and branch names. */
  lemma LunarYearMatchesYearPillar(d: Date)
    requires ValidDate(d)
    ensures var p := YearPillar(d);
      LunarYear(EffectiveYear(d)) == StemName(p.stem) + BranchName(p.branch) + "年(" + ZodiacName(p.branch) + "年)"
  {
    LunarYearNames(EffectiveYear(d));
  }

  /** Every stem and branch name is a single character. */
  lemma NamesAreOneCharacter(s: Stem, b: Branch)
    ensures |StemName(s)| == 1 && |BranchName(b)| == 1
  {
    assert s in {1, 2, 3, 4, 5, 6, 7, 8, 9, 10};
    assert b in {1, 2, 3, 4, 5, 6, 7, 8, 9, 10, 11, 12};
  }

  /** Two years get the same label exactly when they are congruent modulo
      60: the label repeats with the sixty-year cycle and tells apart the
      years within it. */
  lemma LunarYearPeriod(a: int, b: int)
    ensures LunarYear(a) == LunarYear(b) <==> a % 60 == b % 60
  {
    LunarYearNames(a);
    LunarYearNames(b);
    PairAtInjective(a - 3, b - 3);
    DiffMod(a - 3, b - 3, 60);
    assert a - 3 - (b - 3) == a - b;
    DiffMod(a, b, 60);
    var sa, ba := Wrap(a - 3, 10), Wrap(a - 3, 12);
    var sb, bb := Wrap(b - 3, 10), Wrap(b - 3, 12);
    if LunarYear(a) == LunarYear(b) {
      NamesAreOneCharacter(sa, ba);
      NamesAreOneCharacter(sb, bb);
      assert LunarYear(a)[0..1] == StemName(sa) && LunarYear(b)[0..1] == StemName(sb);
      assert LunarYear(a)[1..2] == BranchName(ba) && LunarYear(b)[1..2] == BranchName(bb);
      StemNameRoundTrip(sa);
      StemNameRoundTrip(sb);
      BranchNameRoundTrip(ba);
      BranchNameRoundTrip(bb);
      assert PairAt(a - 3) == PairAt(b - 3);
    }
  }

  // ---------------------------------------------------------------------
  // The hour name

  /** The table covers exactly the hours 0..23. */
  lemma ShiChenDomain(hour: int)
    ensures hour in ShiChen <==> 0 <= hour < 24
  {
  }

  /** For a clock hour the table gives the branch of the hour pillar's
      window; any other hour is unknown. */
  lemma DizhiShiMatchesHourBranch(hour: int)
    ensures 0 <= hour < 24 ==> DizhiShi(hour) == BranchName(HourBranch(hour))
    ensures !(0 <= hour < 24) ==> DizhiShi(hour) == UnknownHour
  {
    ShiChenDomain(hour);
    if 0 <= hour < 24 {
      ShiChenValue(hour);
    }
  }

  /** The table entry of a clock hour is the name of its hour-pillar
      branch. */
  lemma ShiChenValue(hour: int)
    requires 0 <= hour < 24
    ensures hour in ShiChen && ShiChen[hour] == BranchName(HourBranch(hour))
  {
    ShiChenDomain(hour);
  }

  /** The two hours of a branch: 23 and 0 for Zi, `2b - 3` and `2b - 2`
      for every other branch. */
  function HoursOf(b: Branch): (hs: set<int>)
    ensures |hs| == 2
    ensures forall h :: h in hs ==> 0 <= h < 24
  {
    if b == Zi then {23, 0} else {2 * b - 3, 2 * b - 2}
  }

  /** Each branch name is given to exactly two hours, its own two. */
  lemma TwoHoursPerBranch(b: Branch, hour: int)
    ensures hour in ShiChen && ShiChen[hour] == BranchName(b) <==> hour in HoursOf(b)
  {
    ShiChenDomain(hour);
    if 0 <= hour < 24 {
      DizhiShiMatchesHourBranch(hour);
      BranchNameInjective(HourBranch(hour), b);
      HourBranchHours(b, hour);
    }
  }

  /** The hours of the hour-pillar branch `b` are the two of `HoursOf(b)`. */
  lemma HourBranchHours(b: Branch, hour: int)
    requires 0 <= hour < 24
    ensures HourBranch(hour) == b <==> hour in HoursOf(b)
  {
    var w := (hour + 1) / 2;
    assert 0 <= w <= 12;
    if w == 0 || w == 12 {
      WrapCongruent(w + 1, 1, 12);
    } else {
      WrapCongruent(w + 1, w + 1, 12);
    }
  }

  /** Different branches have different names. */
  lemma BranchNameInjective(a: Branch, b: Branch)
    ensures BranchName(a) == BranchName(b) <==> a == b
  {
    BranchNameRoundTrip(a);
    BranchNameRoundTrip(b);
  }
}
