/** The enumerations and constant tables of the Qi Men system: the ten
    heavenly stems, twelve earthly branches, eight gates, eight deities,
    nine stars, nine palaces, and the 24 solar terms with their approximate
    (month, day) dates. Enumeration members are modelled by their integer
    values; their display names are kept as tables indexed by value - 1. */
module Constants {

  import opened Options

  type Stem = s: int | 1 <= s <= 10 witness 1
  type Branch = b: int | 1 <= b <= 12 witness 1
  type Gate = g: int | 1 <= g <= 8 witness 1
  type Deity = d: int | 1 <= d <= 8 witness 1
  type Star = s: int | 1 <= s <= 9 witness 1
  type PalaceNumber = n: int | 1 <= n <= 9 witness 1
  type TermIndex = i: int | 0 <= i < 24 witness 0

  // Stem values used by name in the engine.
  const Jia: Stem := 1
  const Yi: Stem := 2
  const Bing: Stem := 3
  const Ding: Stem := 4
  const Wu: Stem := 5
  const Ji: Stem := 6
  const Geng: Stem := 7
  const Xin: Stem := 8
  const Ren: Stem := 9
  const Gui: Stem := 10

  // Branch values used by name.
  const Zi: Branch := 1
  const Yin: Branch := 3

  // Palace values used by name: Kun (tomb-entry palace) and Zhong (centre).
  const Kun: PalaceNumber := 2
  const Zhong: PalaceNumber := 5

  // The gate and deity that head their cycles.
  const Xiu: Gate := 1
  const ZhiFu: Deity := 1

  const StemNames: seq<string> := ["甲", "乙", "丙", "丁", "戊", "己", "庚", "辛", "壬", "癸"]
  const BranchNames: seq<string> := ["子", "丑", "寅", "卯", "辰", "巳", "午", "未", "申", "酉", "戌", "亥"]
  const GateNames: seq<string> := ["休门", "生门", "伤门", "杜门", "景门", "死门", "惊门", "开门"]
  const DeityNames: seq<string> := ["值符", "螣蛇", "太阴", "六合", "白虎", "玄武", "九天", "九地"]
  const StarNames: seq<string> := ["天蓬", "天芮", "天冲", "天辅", "天禽", "天心", "天柱", "天任", "天英"]
  const PalaceNames: seq<string> := ["坎一宫", "坤二宫", "震三宫", "巽四宫", "中五宫", "乾六宫", "兑七宫", "艮八宫", "离九宫"]

  const TermNames: seq<string> := [
    "立春", "雨水", "惊蛰", "春分", "清明", "谷雨",
    "立夏", "小满", "芒种", "夏至", "小暑", "大暑",
    "立秋", "处暑", "白露", "秋分", "寒露", "霜降",
    "立冬", "小雪", "大雪", "冬至", "小寒", "大寒"
  ]

  /** Approximate (month, day) of each solar term, in term order. */
  const TermTable: seq<(int, int)> := [
    (2, 4), (2, 19), (3, 5), (3, 20), (4, 5), (4, 20),
    (5, 5), (5, 21), (6, 6), (6, 21), (7, 7), (7, 23),
    (8, 8), (8, 23), (9, 8), (9, 23), (10, 8), (10, 23),
    (11, 7), (11, 22), (12, 7), (12, 22), (1, 6), (1, 20)
  ]

  function StemName(s: Stem): string { StemNames[s - 1] }
  function BranchName(b: Branch): string { BranchNames[b - 1] }

  /** Recovers a stem from its display name: the first value whose name
      matches, as the engine's list comprehension does. */
  function StemFromName(name: string): (r: Option<Stem>)
    ensures r.Some? ==> StemName(r.value) == name
    ensures r.None? ==> name !in StemNames
  {
    match FindName(StemNames, name, 0)
    case None => None
    case Some(k) => Some(k)
  }

  /** Recovers a branch from its display name. */
  function BranchFromName(name: string): (r: Option<Branch>)
    ensures r.Some? ==> BranchName(r.value) == name
    ensures r.None? ==> name !in BranchNames
  {
    match FindName(BranchNames, name, 0)
    case None => None
    case Some(k) => Some(k)
  }

  /** The 1-based position of the first entry of `names` at or after
      index `i` that equals `name`. */
  function FindName(names: seq<string>, name: string, i: nat): (r: Option<int>)
    requires i <= |names|
    decreases |names| - i
    ensures r.Some? ==> i < r.value <= |names| && names[r.value - 1] == name
    ensures r.Some? ==> forall j :: i <= j < r.value - 1 ==> names[j] != name
    ensures r.None? ==> forall j :: i <= j < |names| ==> names[j] != name
  {
    if i == |names| then None
    else if names[i] == name then Some(i + 1)
    else FindName(names, name, i + 1)
  }

  /** A table of names is a bijection onto its indices when no two entries
      coincide. */
  ghost predicate Distinct(names: seq<string>)
  {
    forall i, j :: 0 <= i < j < |names| ==> names[i] != names[j]
  }

  lemma NamesDistinct()
    ensures |StemNames| == 10 && Distinct(StemNames)
    ensures |BranchNames| == 12 && Distinct(BranchNames)
    ensures |GateNames| == 8 && Distinct(GateNames)
    ensures |DeityNames| == 8 && Distinct(DeityNames)
    ensures |StarNames| == 9 && Distinct(StarNames)
    ensures |PalaceNames| == 9 && Distinct(PalaceNames)
    ensures |TermNames| == 24 && Distinct(TermNames)
  {
    CycleNamesDistinct();
    BoardNamesDistinct();
    TermNamesDistinct();
  }

  lemma CycleNamesDistinct()
    ensures |StemNames| == 10 && Distinct(StemNames)
    ensures |BranchNames| == 12 && Distinct(BranchNames)
  {
  }

  lemma BoardNamesDistinct()
    ensures |GateNames| == 8 && Distinct(GateNames)
    ensures |DeityNames| == 8 && Distinct(DeityNames)
    ensures |StarNames| == 9 && Distinct(StarNames)
    ensures |PalaceNames| == 9 && Distinct(PalaceNames)
  {
  }

  lemma TermNamesDistinct()
    ensures |TermNames| == 24 && Distinct(TermNames)
  {
  }

  lemma {:induction false} FindNameOfDistinct(names: seq<string>, k: int, i: nat)
    requires Distinct(names)
    requires i <= k < |names|
    ensures FindName(names, names[k], i) == Some(k + 1)
    decreases k - i
  {
    if i < k {
      assert names[i] != names[k];
      FindNameOfDistinct(names, k, i + 1);
    }
  }

  /** Stem names round-trip: name-to-index recovers the index. */
  lemma StemNameRoundTrip(s: Stem)
    ensures StemFromName(StemName(s)) == Some(s)
  {
    NamesDistinct();
    FindNameOfDistinct(StemNames, s - 1, 0);
  }

  /** Branch names round-trip: name-to-index recovers the index. */
  lemma BranchNameRoundTrip(b: Branch)
    ensures BranchFromName(BranchName(b)) == Some(b)
  {
    NamesDistinct();
    FindNameOfDistinct(BranchNames, b - 1, 0);
  }

  /** Facts about the solar-term table that the term lookup relies on. */
  lemma TermTableFacts()
    ensures |TermTable| == 24 && |TermNames| == |TermTable|
    // Entries 0..21 are strictly increasing in (month, day).
    ensures forall i :: 0 <= i < 21 ==> MonthDayLess(TermTable[i], TermTable[i + 1])
    // Entries 22 and 23 lie in January, in order, before entry 0.
    ensures TermTable[22].0 == 1 && TermTable[23].0 == 1
    ensures TermTable[22].1 < TermTable[23].1
    ensures forall i :: 0 <= i < 22 ==> TermTable[i].0 >= 2
    // Every day is at least 4, so removing one day keeps a valid date.
    ensures forall i :: 0 <= i < 24 ==> 4 <= TermTable[i].1 <= 28
  {
  }

  predicate MonthDayLess(a: (int, int), b: (int, int))
  {
    a.0 < b.0 || (a.0 == b.0 && a.1 < b.1)
  }
}
