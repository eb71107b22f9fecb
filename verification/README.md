# qimenpaipan core in Dafny

This project models the computational core of `qimenpaipan`, a Qi Men Dun Jia
(奇门遁甲) charting program, and proves properties of the model. The core has two
parts:

- **The Four-Pillars calculator** (`SolarTerm`, `SiZhuCalculator`). It maps a
  civil date and clock time to four stem/branch pairs: year, month, day and hour.
  - The year turns at the Start of Spring, taken from a fixed 24-entry solar-term
    table with a one-day correction in years divisible by four.
  - The month branch follows the current solar term.
  - The month and hour stems come from the five-tiger and five-rat escapements.
  - The day pillar comes from a closed-form day count that only covers 1901-2100.
- **The palace-layout engine** (`QiMenCalculator`). From the pillars and the
  civil month it derives the polarity (Yang or Yin) and the structure number
  (ju, 1..9). It then lays out the nine palaces in passes:
  1. the ground plate of stems;
  2. the heaven plate of stars;
  3. the eight gates and the eight deities, which skip the centre;
  4. the tomb-entry flag and the twelve-stage vitality of each palace;
  5. the day's travel horse and noble persons.

The pure helpers of the lunar converter are modelled too: the sexagenary label
of a year with its zodiac animal, and the branch name of a clock hour.

The model is functional throughout:
- stems, branches, gates, deities, stars and palace numbers are 1-based subset
  types of `int`;
- a board is a `seq<Palace>` of length 9;
- each pass is a pure function from one board to the next.

The circular walks of the passes are two generic functions: `Board.Walk` over
all nine palaces and `Board.WalkSkip`, which skips the centre. Each has a closed
form and lemmas for coverage and distinctness. Python's `%` with a positive
divisor agrees with Dafny's Euclidean `%`. The walks use `Board.Ring`, a
single-subtraction remainder that `Board.RingIsMod` proves equal to `%` on the
range the walks use.

Modules, one per file:

| file | module | contents |
|---|---|---|
| options.dfy | Options | `Option` and `Result` |
| constants.dfy | Constants | name tables, the solar-term table, name lookups |
| cycle.dfy | Cycle | the 1-based wrap, the sixty-pair cycle, remainder facts |
| calendar.dfy | Calendar | Gregorian dates, leap years, the next day |
| solar_terms.dfy | SolarTerms | term dates and the current-term scan |
| sizhu.dfy | SiZhu | the four pillars |
| board.dfy | Board | palaces, the empty board, the two walks |
| qimen.dfy | QiMen | polarity, structure number, the passes, the chart |
| lunar.dfy | Lunar | year label and hour name |

Where the code's comments and its code differ, the model follows the code:
- **Yi's growth branch.** It is branch 8 (未), although the comment says 午.
- **Palace index 5.** It maps to branch 7 (午), although the comment says 戌.
- **Travel horse.** The table maps every branch to its opposite, not the
  grouping its comment recites.

`Cycle.PairAtInjective` and `Cycle.IndexOf` show that the sixty positions of
the cycle give sixty different stem/branch pairs and reach every pair whose
stem and branch share parity.

`Calendar.NextDay` is not taken from the program. It is the following calendar
day, used to state how the day pillar moves from one day to the next. Its
contract says it is a later valid date in the same year except after
December 31. `Calendar.NextDayIsNext` adds that no valid date lies strictly
between the two.

## Model

| member | source | states |
|---|---|---|
| Constants.NamesDistinct | qimen_system/constants.py:9-120 | The stem, branch, gate, deity, star, palace and term name tables have 10, 12, 8, 8, 9, 9 and 24 entries, each pairwise different, so every value has its own name. |
| Constants.StemFromName | qimen_system/qimen_calculator.py:49-51 | Looking a stem up by name gives a stem with exactly that name, and finds nothing only when the name is no stem's name. |
| Constants.BranchFromName | qimen_system/qimen_calculator.py:52-54 | Looking a branch up by name gives a branch with exactly that name, and finds nothing only when the name is no branch's name. |
| Constants.FindNameOfDistinct | qimen_system/qimen_calculator.py:49-54 | In a table of distinct names, the first-match lookup of the k-th name returns position k. |
| Constants.StemNameRoundTrip | qimen_system/constants.py:9-25 | Name then lookup gives back the stem, so the engine's name comparisons are stem equality. |
| Constants.BranchNameRoundTrip | qimen_system/constants.py:27-46 | Name then lookup gives back the branch. |
| Constants.TermTableFacts | qimen_system/constants.py:115-127 | The term table has 24 entries. Entries 0-21 strictly increase in (month, day). Entries 22 and 23 lie in January, in order, while 0-21 lie in February or later. Every day lies in 4..28. |
| Cycle.Wrap | qimen_system/sizhu_calculator.py:86-95 | The "remainder, with 0 read as N" value lies in 1..N and is congruent to its argument. |
| Cycle.PairAt | qimen_system/sizhu_calculator.py:185-196 | The n-th pair of the cycle has a stem congruent to n mod 10 and a branch congruent to n mod 12, and the two share parity. |
| Cycle.IndexOf | qimen_system/sizhu_calculator.py:180-196 | Every parity-matched pair sits at some position 1..60 of the cycle: `IndexOf` inverts `PairAt`. |
| Cycle.PairAtInjective | qimen_system/sizhu_calculator.py:180-196 | Two positions give the same pair exactly when they are congruent modulo 60, so the cycle has sixty different pairs. |
| Cycle.IndexOfPairAt | qimen_system/sizhu_calculator.py:180-196 | The position of the n-th pair is n brought into 1..60. |
| Calendar.DaysInMonth | qimen_system/sizhu_calculator.py:155-160 | Months have 28 to 31 days, and February has 29 exactly in Gregorian leap years. |
| SolarTerms.TermDate | qimen_system/sizhu_calculator.py:15-20 | A term date keeps the table's month. Its day is the table's day or exactly one less, and it is less exactly when the year is divisible by 4 and the index is at least 2. |
| SolarTerms.TermDateValid | qimen_system/sizhu_calculator.py:15-20 | Every term date of every year 1..9999 is a valid calendar date, so the date constructor never fails there. |
| SolarTerms.ScanTerms | qimen_system/sizhu_calculator.py:26-31 | The scan returns the first index whose term has begun and whose successor has not, or 0 when no index qualifies. |
| SolarTerms.TermOrder | qimen_system/sizhu_calculator.py:15-20 | Within a year, the corrected terms 0-21 run from February to December. Terms 22 and 23 fall in January, before term 0. |
| SolarTerms.CurrentTerm | qimen_system/sizhu_calculator.py:23-31 | The reported term is 0 or a term whose interval holds the date, and no earlier term's interval holds it. When some term's interval holds the date, the reported one does. `SolarTerms.CurrentTermCases` splits this by date. |
| SolarTerms.CurrentTermCases | qimen_system/sizhu_calculator.py:23-31 | Term 21 is never reported. Dates before term 22 fall through to 0. Dates from term 21 on report 23. Every other date between terms 0 and 21 reports the interval it lies in. |
| SolarTerms.IntervalBelow | qimen_system/sizhu_calculator.py:26-30 | A date between term 0 and term k lies in some interval [term i, term i+1) with i < k. |
| SolarTerms.EarlyJanuaryIsTermZero | qimen_system/sizhu_calculator.py:31 | January 1-5 (1-4 in years divisible by 4) report term 0. |
| SolarTerms.LateDecemberIsTermTwentyThree | qimen_system/sizhu_calculator.py:26-30 | December 22-31 report term 23. |
| SiZhu.HourBranch | qimen_system/sizhu_calculator.py:207-232 | Hours 0..23 get branch `(hour+1)//2 + 1`, wrapped to 1..12, so 23 and 0 are Zi and 12 is Wu. Any other value defaults to Zi. |
| SiZhu.Window | qimen_system/sizhu_calculator.py:65-70 | For a clock hour the window number lies in 1..12, and the next position after it is the hour's branch, so two hours share a window exactly when they share a branch. |
| SiZhu.TrueSolarHour | qimen_system/sizhu_calculator.py:48-76 | For a clock hour the corrected hour is the same hour or the one before, and it always has the same branch. |
| SiZhu.FiveRat | qimen_system/sizhu_calculator.py:242-255 | The Zi-hour stem for day stem s is `2s - 1` wrapped to 1..10, always a Yang (odd) stem. |
| SiZhu.HourPillar | qimen_system/sizhu_calculator.py:200-261 | The hour pillar has the hour's branch, a stem of the same parity, and the five-rat stem in the Zi hour. |
| SiZhu.HourPillarContinuesDay | qimen_system/sizhu_calculator.py:242-259 | For day pillar number n, the hour pillar is pair `12(n-1) + branch` of the cycle, so the hours of consecutive days run on without a break. |
| SiZhu.EscapementsRepeat | qimen_system/sizhu_calculator.py:117-128 | Stems s and s+5 share their five-tiger month start and their five-rat hour start. |
| SiZhu.EffectiveYear | qimen_system/sizhu_calculator.py:81-83 | The pillar year is the previous year exactly for January and February 1-3, the dates before the Start of Spring. |
| SiZhu.YearPillar | qimen_system/sizhu_calculator.py:78-97 | The year pillar is a parity-matched pair at position `year - 3` of the cycle. |
| SiZhu.YearPillarExamples | qimen_system/sizhu_calculator.py:81-97 | 1984-03-01 is Jia-Zi, while 1984-01-01 belongs to 1983, Gui-Hai. |
| SiZhu.FiveTiger | qimen_system/sizhu_calculator.py:117-130 | The first-month stem for year stem s is `2s + 1` wrapped to 1..10, always a Yang stem. |
| SiZhu.MonthStem | qimen_system/sizhu_calculator.py:130-141 | The Yin month gets the five-tiger stem, and every month stem shares its branch's parity. |
| SiZhu.MonthPillar | qimen_system/sizhu_calculator.py:99-143 | The month pillar is parity-matched, its branch comes from the current term, and the Yin month starts at the five-tiger stem. |
| SiZhu.MonthBranch | qimen_system/sizhu_calculator.py:106-109 | The month branch is Yin exactly for terms 0 and 1. `SiZhu.MonthBranchSteps` states how later terms advance it. |
| SiZhu.MonthBranchSteps | qimen_system/sizhu_calculator.py:106-108 | Terms 0 and 1 give the Yin month, each pair of terms shares a month, and the next pair advances one branch. |
| SiZhu.MonthPillarContinuesYear | qimen_system/sizhu_calculator.py:130-141 | For year pillar number n, the month with branch b is pair `12(n-1) + 3 + distance` of the cycle, where distance is the number of months after Yin: months run on from year to year. |
| SiZhu.DaysBefore | qimen_system/sizhu_calculator.py:158-165 | The month-by-month sum of month lengths equals the cumulative table, plus one after February in leap years. |
| SiZhu.DayOfYear | qimen_system/sizhu_calculator.py:163-166 | The day of the year lies in 1..365, or 1..366 in leap years. |
| SiZhu.LeapRule | qimen_system/sizhu_calculator.py:155-166 | 2000 and 2024 are leap years and 1900 and 2100 are not. March 1 is day 61 exactly in leap years. December 31 is the year's last day. |
| SiZhu.DayCountElapsed | qimen_system/sizhu_calculator.py:169-178 | Modulo 60, the day count is 365 days for each year since the century's year 1, plus one leap day per four years, the day of the year and the 20th-century offset of 15. So the formula's 5 per year is 365 modulo 60. |
| SiZhu.DayIndex | qimen_system/sizhu_calculator.py:169-183 | The day's remainder, with 0 read as 60, lies in 1..60. |
| SiZhu.DayPillar | qimen_system/sizhu_calculator.py:145-198 | Years outside 1901..2100 fail with that year. Any other date gives a parity-matched pair at the day's remainder. |
| SiZhu.DayPillarBoundaries | qimen_system/sizhu_calculator.py:150-151 | 1900-12-31 and 2101-01-01 are rejected, while 1901-01-01 and 2100-12-31 are accepted. |
| SiZhu.DayPillarAnchors | qimen_system/sizhu_calculator.py:171-198 | 1901-01-01 is Ji-Mao and 2001-01-01 is Jia-Zi. |
| SiZhu.AnchorIndex | qimen_system/sizhu_calculator.py:181-196 | A remainder n of 1..60 gives the n-th pair of the cycle. |
| SiZhu.DayOfYearNext | qimen_system/sizhu_calculator.py:163-166 | The next day in the same year has the next day-of-year. |
| SiZhu.DayIndexWithinYear | qimen_system/sizhu_calculator.py:169-183 | Within a year, consecutive days advance one step in the sixty-day cycle. |
| SiZhu.DayIndexNext | qimen_system/sizhu_calculator.py:169-183 | Within 1901..2100 the cycle advances by exactly one from each day to the next, except from December 31 of 1999, 2000 and 2099. |
| SiZhu.DayIndexJumps | qimen_system/sizhu_calculator.py:169-178 | The cycle jumps from 54 to 10 into 2000, from 15 to 1 into 2001, and from 39 to 55 into 2100. |
| SiZhu.OrdinaryYearEnd | qimen_system/sizhu_calculator.py:169-178 | Across every other year end in 1901..2099 the cycle advances by exactly one. |
| SiZhu.FourPillarsOf | qimen_system/sizhu_calculator.py:36-46 | The calculator fails exactly when the day pillar does. Otherwise it gives the year, month, day and hour pillars, the month from the year stem and the hour from the day stem and corrected hour. |
| Board.InitialBoard | qimen_system/qimen_calculator.py:20-41 | Nine empty palaces numbered 1..9, with nothing placed or flagged. Kun (坤二宫) is at index 1 and the centre (中五宫) at index 4. |
| Board.RingIsMod | qimen_system/qimen_calculator.py:93 | The walks' single-subtraction remainder equals `%` on the range the walks use. |
| Board.Walk | qimen_system/qimen_calculator.py:92-94 | After the walk, the palace d steps from the start holds item `(offset + d) mod 9`, and the palaces not yet reached are unchanged. |
| Board.WalkComplete | qimen_system/qimen_calculator.py:129-131 | A full walk fills every palace, the start palace with the item at the offset. |
| Board.WalkDistinct | qimen_system/qimen_calculator.py:129-131 | A full walk of distinct items leaves no two palaces alike. |
| Board.WalkHits | qimen_system/qimen_calculator.py:129-131 | Every item lands in some palace. |
| Board.WalkSkip | qimen_system/qimen_calculator.py:159-166 | After the centre-skipping walk, an off-centre palace reached after k other off-centre palaces holds item `(offset + k) mod 8`. The centre and unreached palaces are unchanged. |
| Board.WalkSkipShape | qimen_system/qimen_calculator.py:162-166 | The centre is kept, every other palace is filled, and the first off-centre palace holds the item at the offset. |
| Board.WalkSkipDistinct | qimen_system/qimen_calculator.py:162-166 | Distinct items leave no two off-centre palaces alike. |
| Board.WalkSkipHits | qimen_system/qimen_calculator.py:162-166 | Each of the eight items lands in some off-centre palace. |
| QiMen.PhaseOf | qimen_system/qimen_calculator.py:57-60 | For a month 1..12 the polarity is Yin exactly for months 6-10. |
| QiMen.Ju | qimen_system/qimen_calculator.py:63-65 | The structure number lies in 1..9 and is congruent to day stem plus day branch modulo 9, which fixes it: the sum's remainder, with 0 read as 9. |
| QiMen.JuByResidue | qimen_system/qimen_calculator.py:63-65 | Two days share a structure number exactly when their stem-plus-branch sums agree modulo 9. |
| QiMen.JuAttained | qimen_system/qimen_calculator.py:63-65 | Every structure number 1..9 is reached by some valid day pillar. |
| QiMen.StartPalace | qimen_system/qimen_calculator.py:72-78 | Wu's start palace moves three palaces back for each block of three structures. |
| QiMen.StartIndexBands | qimen_system/qimen_calculator.py:72-78 | Wu starts at index 3 for structures 1-3, index 0 for 4-6 and index 6 for 7-9. |
| QiMen.StemSequenceDistinct | qimen_system/qimen_calculator.py:82-89 | Both stem orders hold nine different stems, none of them Jia. |
| QiMen.StemSequenceHolds | qimen_system/qimen_calculator.py:82-89 | Every stem other than Jia appears in both orders. |
| QiMen.GroundPlate | qimen_system/qimen_calculator.py:69-94 | Only stems change. Palace p gets the stem d steps into the order, where d is p's distance from Wu's start. Wu is at the start, every palace holds a stem, none holds Jia, and no two hold the same. |
| QiMen.GroundPlateCovers | qimen_system/qimen_calculator.py:92-94 | Every stem other than Jia lies in some palace of the ground plate. |
| QiMen.StarFor | qimen_system/qimen_calculator.py:111-117 | A Jia hour stem falls back to Tian Peng. |
| QiMen.StarForFollowsYangOrder | qimen_system/qimen_calculator.py:111-117 | The star mapping lines the Yang stem order up with the star order, and gives different stars to different non-Jia stems. |
| QiMen.HoldsStemIsEquality | qimen_system/qimen_calculator.py:122 | The engine's name comparison holds exactly when the palace holds that stem. |
| QiMen.FindStem | qimen_system/qimen_calculator.py:120-124 | The search returns the first palace holding the stem, or nothing when no palace does. |
| QiMen.HeavenPlate | qimen_system/qimen_calculator.py:96-131 | When no palace holds the hour stem, the board is unchanged. Otherwise only stars change: the hour stem's palace gets its star, every palace gets one, and no two the same. Round the ring from that palace the stars follow the star order, starting from the hour stem's star (`StarsFollowOrder`). |
| QiMen.GateFor | qimen_system/qimen_calculator.py:148-154 | The hour branch's gate is `(branch - 1) mod 8 + 1`. |
| QiMen.PlaceGates | qimen_system/qimen_calculator.py:133-166 | Only gates change and the centre is untouched. Every other palace gets a gate, no two the same. The first off-centre palace from index `(ju - 1) mod 9` gets the hour branch's gate. Round the ring from there, skipping the centre, the gates follow the gate order, starting from that gate (`GatesFollowOrder`). |
| QiMen.PlaceGatesCovers | qimen_system/qimen_calculator.py:159-166 | Each of the eight gates lies in some off-centre palace. |
| QiMen.FirstStarred | qimen_system/qimen_calculator.py:185-189 | The search returns the first palace holding a star, or nothing when none does. |
| QiMen.PlaceDeities | qimen_system/qimen_calculator.py:168-198 | Without a star the board is unchanged. Otherwise only deities change and the centre is untouched. The walk from the first starred palace gives Zhi Fu first, and every other palace a deity, no two the same. |
| QiMen.PlaceDeitiesCovers | qimen_system/qimen_calculator.py:191-198 | With a star on the board, each of the eight deities lies in some off-centre palace. |
| QiMen.PlaceDeitiesFollowOrder | qimen_system/qimen_calculator.py:171-198 | The off-centre palace reached after k others holds entry k of the polarity's deity order. |
| QiMen.NoStarNoDeities | qimen_system/qimen_calculator.py:184-191 | A board with no star is left unchanged by the deity pass. |
| QiMen.MarkTombEntry | qimen_system/qimen_calculator.py:200-208 | Only the tomb-entry flag changes. It is set exactly on Kun holding Bing, Ding or Wu, or where it was already set. |
| QiMen.Vitality | qimen_system/qimen_calculator.py:264-280 | The stage is 0 (长生) exactly on the stem's growth branch. Counting that many stages from the growth branch, forwards for Yang stems and backwards for Yin stems, reaches the palace's branch. |
| QiMen.StageUnique | qimen_system/qimen_calculator.py:268-277 | No other stage 0..11 reaches the same branch, so the stage is determined by the branch. |
| QiMen.MarkVitality | qimen_system/qimen_calculator.py:256-284 | Only vitality changes. A stage is set exactly where there is a stem, and it leads from the stem's growth branch to the palace's branch. |
| QiMen.TravelHorse | qimen_system/qimen_calculator.py:299 | A name that is not a branch gives 未知. |
| QiMen.TravelHorseOpposite | qimen_system/qimen_calculator.py:293-299 | The travel horse of a branch is the branch six places on. The map is an involution without fixed points. |
| QiMen.NoblePersons | qimen_system/qimen_calculator.py:313 | A name that is not a stem gives [未知]. |
| QiMen.NoblePair | qimen_system/qimen_calculator.py:305-313 | Every stem has two different noble branches that sum to 10 modulo 12, neither of them Chen or Xu. |
| QiMen.PaiPan | qimen_system/qimen_calculator.py:319-327 | The chart has nine palaces and carries the pillars, the month's polarity and the day's structure number. What each palace holds after the passes is stated by `QiMen.Layers` and the chart lemmas below. |
| QiMen.ComputeChart | qimen_system/__init__.py:15-28 | Charting fails exactly for years outside 1901..2100. Otherwise the chart is `PaiPan` of the four pillars and the civil month, so every chart lemma applies to it. It carries the four pillars and the month's polarity. |
| QiMen.Layers | qimen_system/qimen_calculator.py:319-327 | Each pass leaves the earlier passes' fields alone. A chart palace keeps its number, the ground stem, the heaven star, the gate and the deity. Its branch and its clash, gate-suppression, void, travel-horse and noble-person marks stay unset. |
| QiMen.ChartStems | qimen_system/qimen_calculator.py:69-94 | In the finished chart every palace holds a stem, none Jia, no two alike, and Wu is in the structure's start palace. |
| QiMen.JiaHourHasNoStars | qimen_system/qimen_calculator.py:119-126 | With a Jia hour stem no palace of the chart holds a star or a deity. |
| QiMen.JiaHourSkipsHeaven | qimen_system/qimen_calculator.py:119-126 | With a Jia hour stem the heaven pass leaves the ground plate unchanged. |
| QiMen.JiaHourSkipsDeities | qimen_system/qimen_calculator.py:184-191 | With a Jia hour stem the deity pass changes nothing and no deity is placed. |
| QiMen.HourStemFound | qimen_system/qimen_calculator.py:119-124 | Any other hour stem is found on the ground plate. |
| QiMen.ChartStars | qimen_system/qimen_calculator.py:111-131 | With any other hour stem every palace holds a star, no two alike, and the hour stem's palace holds that stem's star. |
| QiMen.ChartDeities | qimen_system/qimen_calculator.py:184-198 | With any other hour stem, Kan (index 0) holds Zhi Fu, the centre no deity, and every other palace a deity, no two alike. |
| QiMen.ChartGates | qimen_system/qimen_calculator.py:157-166 | The centre holds no gate, and every other palace holds one, no two alike. |
| QiMen.ChartLeadGate | qimen_system/qimen_calculator.py:157-165 | The hour branch's gate stands at index ju - 1, or at index 5 when that is the centre. |
| QiMen.TombAt | qimen_system/qimen_calculator.py:204-208 | A chart palace is flagged exactly when it is Kun and holds Bing, Ding or Wu. |
| QiMen.WuNeverInKun | qimen_system/qimen_calculator.py:207-208 | Wu never stands in Kun, so the Wu tomb-entry branch never fires. |
| QiMen.ChartTombEntry | qimen_system/qimen_calculator.py:200-208 | The flag is set exactly on Kun holding Bing or Ding. |
| QiMen.KunStem | qimen_system/qimen_calculator.py:72-94 | The ground plate puts Bing or Ding in Kun exactly for Yang structures 1-3 and Yin structures 4-6. |
| QiMen.TombEntryByStructure | qimen_system/qimen_calculator.py:200-208 | Kun is flagged exactly in Yang structures 1-3 and Yin structures 4-6. |
| QiMen.ChartFlags | qimen_system/qimen_calculator.py:256-284 | Every chart palace has a vitality stage leading from its stem's growth branch to the palace's branch. No palace has its branch or clash, gate-suppression, void, travel-horse or noble-person mark set. |
| QiMen.ChartDayBranches | qimen_system/qimen_calculator.py:286-317 | The chart's travel horse is the branch opposite the day branch. Its noble persons are two different branches summing to 10 modulo 12. |
| Lunar.TablesAgree | qimen_system/lunar_converter.py:13-20 | The converter's stem and branch tables are the engine's names, and the zodiac table has twelve animals. |
| Lunar.LunarYear | qimen_system/lunar_converter.py:38-43 | The label has seven characters: stem, branch, "年(", animal, "年)". Every year has a label, since both remainders are valid indices. `Lunar.LunarYearNames` gives its contents. |
| Lunar.LunarYearNames | qimen_system/lunar_converter.py:38-43 | The year label names the stem and branch of `year - 3` wrapped to 1..10 and 1..12, and the animal of that branch. |
| Lunar.LunarYearMatchesYearPillar | qimen_system/lunar_converter.py:38-43 | The label of a date's pillar year carries the year pillar's own stem and branch names and the branch's animal. |
| Lunar.LunarYearPeriod | qimen_system/lunar_converter.py:38-43 | Two years get the same label exactly when they are congruent modulo 60. |
| Lunar.ShiChenDomain | qimen_system/lunar_converter.py:23-28 | The hour table covers exactly the hours 0..23. |
| Lunar.DizhiShi | qimen_system/lunar_converter.py:46-48 | The hour name is 未知时 exactly for hours outside 0..23. `Lunar.DizhiShiMatchesHourBranch` gives the name of every other hour. |
| Lunar.DizhiShiMatchesHourBranch | qimen_system/lunar_converter.py:46-48 | For hours 0..23 the hour name is the name of the hour pillar's branch. Any other hour is 未知时. |
| Lunar.TwoHoursPerBranch | qimen_system/lunar_converter.py:23-28 | Each branch name is given to exactly two hours: 23 and 0 for Zi, `2b - 3` and `2b - 2` for every other branch b. |

## Left out

- The lunar date string (`get_lunar_date`) is a call into an external
  lunar-calendar library and is not part of this model.
- Result and report assembly is string formatting only and is not modelled:
  `get_result`, `get_sizhu`, the package's display and JSON layout, and the
  command-line entry point `main.py`.
- Stems and branches are modelled as indices. The engine's name lookups reduce
  to index equality, as `Constants.StemNameRoundTrip` and
  `QiMen.HoldsStemIsEquality` show.
- Calendar dates are (year, month, day) triples with a validity predicate, in
  place of `datetime.date`. An invalid date raises inside `datetime` and is a
  precondition here.
- The first month-stem computation in `_calculate_yue_zhu` is overwritten
  before use. Only the second one is modelled.
- The vitality pass's "未知" label and its `diff < 0` guards cannot happen:
  every stem is in the growth table, and Python's `%` is never negative. The
  stage is a `Stage` (0..11) whose name is `StageNames[k]`.
- The travel-horse and noble-person results are stored on the chart, as the
  engine stores them on itself. The per-palace marks of the same names are
  never set, as `QiMen.Layers` states.
- The engine's objects are mutated in place; the model passes boards from
  pass to pass. Only the final state is compared.
- The day count's discontinuities at the ends of 1999, 2000 and 2099 are
  reproduced as the code has them. `SiZhu.DayIndexNext` states exactly where
  they fall.
- QiMen.PaiPan: its own contract fixes the board size and the chart's pillars,
  polarity and structure number. What the palaces hold is stated by the chart
  lemmas that follow it (`QiMen.Layers`, `QiMen.ChartStems`,
  `QiMen.ChartStars` and the rest).
- QiMen.StarFor: the contract only states the Jia fallback. The mapping for
  the other stems is stated by `QiMen.StarForFollowsYangOrder`.
