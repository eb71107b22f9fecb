/** The Qi Men palace layout: the structure number (ju) and polarity from
    the day pillar and civil month, then the passes that fill the nine
    palaces in a fixed order: ground plate (stems), heaven plate (stars),
    gates, deities, the tomb-entry flag, the twelve-stage vitality, and
    finally the travel-horse and noble-person branches of the day. */
module QiMen {

  import opened Options
  import opened Constants
  import opened Cycle
  import opened Calendar
  import opened SiZhu
  import opened Board

  // ---------------------------------------------------------------------
  // Structure number and polarity

  /** Yang (ascending) or Yin (descending) arrangement. */
  datatype Phase = Yang | Yin

  /** The polarity of the civil month: Yang for November through May. */
  function PhaseOf(month: int): (ph: Phase)
    ensures 1 <= month <= 12 ==> (ph == Yin <==> 6 <= month <= 10)
  {
    if month in [11, 12, 1, 2, 3, 4, 5] then Yang else Yin
  }

  /** The structure number: stem index plus branch index of the day pillar,
      reduced to 1..9 with 0 read as 9. */
  function Ju(day: Pillar): (ju: int)
    ensures 1 <= ju <= 9
    ensures ju % 9 == (day.stem + day.branch) % 9
  {
    Wrap(day.stem + day.branch, 9)
  }

  /** Two days share a structure number exactly when their stem-plus-branch
      sums agree modulo 9. */
  lemma JuByResidue(a: Pillar, b: Pillar)
    ensures Ju(a) == Ju(b) <==> (a.stem + a.branch) % 9 == (b.stem + b.branch) % 9
  {
    WrapEquiv(a.stem + a.branch, b.stem + b.branch, 9);
  }

  /** Every structure number occurs for some day of the sixty-day cycle. */
  lemma JuAttained(ju: int) returns (day: Pillar)
    requires 1 <= ju <= 9
    ensures ValidPair(day) && Ju(day) == ju
  {
    // (k, k) is a valid pair with sum 2k, and 2k meets every residue
    // modulo 9 for k in 1..9.
    if ju % 2 == 0 {
      day := Pillar(ju / 2, ju / 2);
    } else {
      day := Pillar((ju + 9) / 2, (ju + 9) / 2);
    }
  }

  // ---------------------------------------------------------------------
  // Ground plate

  /** The palace (1..9) where Wu starts, by structure number. */
  const WuStart: map<int, PalaceNumber> := map[1 := 4, 2 := 4, 3 := 4, 4 := 1, 5 := 1, 6 := 1, 7 := 7, 8 := 7, 9 := 7]

  /** Structures 1-3 start Wu in palace 4, 4-6 in palace 1, 7-9 in palace
      7: three palaces back for every block of three structures. */
  function StartPalace(ju: int): (n: PalaceNumber)
    requires 1 <= ju <= 9
    ensures n == Wrap(4 - 3 * ((ju - 1) / 3), 9)
  {
    WuStart[ju]
  }

  /** The nine stems other than Jia in the order they are laid out: Wu
      first, then onwards in the Yang order or backwards in the Yin order. */
  function StemSequence(ph: Phase): (s: seq<Stem>)
    ensures |s| == 9
  {
    match ph
    case Yang => [Wu, Ji, Geng, Xin, Ren, Gui, Ding, Bing, Yi]
    case Yin => [Wu, Bing, Ding, Gui, Ren, Xin, Geng, Ji, Yi]
  }

  /** Each order holds nine different stems, none of them Jia ... */
  lemma StemSequenceDistinct(ph: Phase)
    ensures DistinctItems(StemSequence(ph))
    ensures forall k :: 0 <= k < 9 ==> StemSequence(ph)[k] != Jia
  {
  }

  /** ... so it holds every other stem, at the position returned. */
  lemma StemSequenceHolds(ph: Phase, s: Stem) returns (j: int)
    requires s != Jia
    ensures 0 <= j < 9 && StemSequence(ph)[j] == s
  {
    // position of each stem, indexed by the stem (entries 0 and 1 unused)
    var pos := if ph == Yang then [0, 0, 8, 7, 6, 0, 1, 2, 3, 4, 5] else [0, 0, 8, 1, 2, 0, 7, 6, 5, 4, 3];
    j := pos[s];
  }

  /** The ground plate: Wu in the start palace of the structure, the other
      stems following it round the nine palaces. Every palace then holds a
      stem, no two the same, Jia nowhere and every other stem somewhere;
      nothing but the stems changes. */
  function GroundPlate(b: seq<Palace>, ju: int, ph: Phase): (r: seq<Palace>)
    requires |b| == 9 && 1 <= ju <= 9
    ensures |r| == 9
    ensures forall p :: 0 <= p < 9 ==> r[p] == b[p].(stem := r[p].stem)
    ensures forall p :: 0 <= p < 9 ==>
      r[p].stem == Some(StemSequence(ph)[Dist(StartPalace(ju) - 1, p)])
    ensures r[StartPalace(ju) - 1].stem == Some(Wu)
    ensures forall p :: 0 <= p < 9 ==> r[p].stem.Some? && r[p].stem != Some(Jia)
    ensures forall p, q :: 0 <= p < q < 9 ==> r[p].stem != r[q].stem
  {
    var start := StartPalace(ju) - 1;
    StemSequenceDistinct(ph);
    WalkDistinct(Stems(b), start, StemSequence(ph), 0);
    WalkComplete(Stems(b), start, StemSequence(ph), 0);
    WithStems(b, Walk(Stems(b), start, StemSequence(ph), 0, 0))
  }

  /** Every stem except Jia lies in some palace of the ground plate. */
  lemma GroundPlateCovers(b: seq<Palace>, ju: int, ph: Phase, s: Stem) returns (p: int)
    requires |b| == 9 && 1 <= ju <= 9 && s != Jia
    ensures 0 <= p < 9 && GroundPlate(b, ju, ph)[p].stem == Some(s)
  {
    var start := StartPalace(ju) - 1;
    var j := StemSequenceHolds(ph, s);
    p := Ring(start + j, 9);
    DistStep(start, j);
  }

  // ---------------------------------------------------------------------
  // Heaven plate

  /** The nine stars in their circular order. */
  const StarOrder: seq<Star> := [1, 2, 3, 4, 5, 6, 7, 8, 9]

  lemma StarOrderAt(k: int)
    requires 0 <= k < 9
    ensures StarOrder[k] == k + 1
  {
  }

  lemma StarOrderDistinct()
    ensures DistinctItems(StarOrder)
  {
  }

  /** The star each stem leads; stems outside the table (only Jia) fall
      back to Tianpeng. */
  const StarMapping: map<Stem, Star> := map[5 := 1, 6 := 2, 7 := 3, 8 := 4, 9 := 5, 10 := 6, 4 := 7, 3 := 8, 2 := 9]

  function StarFor(s: Stem): (st: Star)
    ensures s == Jia ==> st == 1
  {
    if s in StarMapping then StarMapping[s] else 1
  }

  /** The star table follows the Yang stem order: the stem at position j
      of that order leads the star at position j of the star order, so it
      pairs the nine non-Jia stems one-to-one with the nine stars. */
  lemma StarForFollowsYangOrder()
    ensures forall j :: 0 <= j < 9 ==> StarFor(StemSequence(Yang)[j]) == StarOrder[j]
    ensures forall s: Stem, t: Stem :: s != Jia && t != Jia && s != t ==> StarFor(s) != StarFor(t)
  {
  }

  /** A palace holds stem `s` when its stem's name is the name of `s`. */
  predicate HoldsStem(pal: Palace, s: Stem)
  {
    pal.stem.Some? && StemName(pal.stem.value) == StemName(s)
  }

  /** Comparing names is comparing stems, the names being distinct. */
  lemma HoldsStemIsEquality(pal: Palace, s: Stem)
    ensures HoldsStem(pal, s) <==> pal.stem == Some(s)
  {
    NamesDistinct();
    if HoldsStem(pal, s) {
      assert StemNames[pal.stem.value - 1] == StemNames[s - 1];
    }
  }

  /** The first palace at or after `i` holding stem `s`. */
  function FindStem(b: seq<Palace>, s: Stem, i: nat): (r: Option<int>)
    requires |b| == 9 && i <= 9
    decreases 9 - i
    ensures r.Some? ==> i <= r.value < 9 && b[r.value].stem == Some(s)
    ensures r.Some? ==> forall p :: i <= p < r.value ==> b[p].stem != Some(s)
    ensures r.None? ==> forall p :: i <= p < 9 ==> b[p].stem != Some(s)
  {
    HoldsStemIsEquality(if i < 9 then b[i] else b[0], s);
    if i == 9 then None
    else if HoldsStem(b[i], s) then Some(i)
    else FindStem(b, s, i + 1)
  }

  /** Round the ring from palace `start` the stars follow `StarOrder`,
      beginning with `lead`: the palace `k` steps on holds the star `k`
      places after `lead` in the order. */
  predicate StarsFollowOrder(r: seq<Palace>, start: int, lead: Star)
    requires |r| == 9 && 0 <= start < 9
  {
    forall p :: 0 <= p < 9 ==> r[p].star == Some(StarOrder[Ring(lead - 1 + Dist(start, p), 9)])
  }

  /** The heaven plate: the hour stem's star goes to the palace holding the
      hour stem and the other stars follow round the nine palaces. When no
      palace holds the hour stem the board is left as it was. */
  function HeavenPlate(b: seq<Palace>, hourStem: Stem): (r: seq<Palace>)
    requires |b| == 9
    ensures FindStem(b, hourStem, 0).None? ==> r == b
    ensures |r| == 9
    ensures forall p :: 0 <= p < 9 ==> r[p] == b[p].(star := r[p].star)
    ensures FindStem(b, hourStem, 0).Some? ==>
      r[FindStem(b, hourStem, 0).value].star == Some(StarFor(hourStem))
    ensures FindStem(b, hourStem, 0).Some? ==>
      forall p :: 0 <= p < 9 ==> r[p].star.Some?
    ensures FindStem(b, hourStem, 0).Some? ==>
      forall p, q :: 0 <= p < q < 9 ==> r[p].star != r[q].star
    ensures FindStem(b, hourStem, 0).Some? ==>
      StarsFollowOrder(r, FindStem(b, hourStem, 0).value, StarFor(hourStem))
  {
    var pos := FindStem(b, hourStem, 0);
    if pos.None? then b
    else
      StarsLaid(b, pos.value, StarFor(hourStem));
      StarsInOrder(b, pos.value, StarFor(hourStem));
      WithStars(b, Walk(Stars(b), pos.value, StarOrder, StarFor(hourStem) - 1, 0))
  }

  lemma StarsLaid(b: seq<Palace>, start: int, lead: Star)
    requires |b| == 9 && 0 <= start < 9
    ensures var r := WithStars(b, Walk(Stars(b), start, StarOrder, lead - 1, 0));
      && r[start].star == Some(lead)
      && (forall p :: 0 <= p < 9 ==> r[p].star.Some?)
      && (forall p, q :: 0 <= p < q < 9 ==> r[p].star != r[q].star)
  {
    StarsShape(Stars(b), start, lead);
    StarsDistinct(Stars(b), start, lead);
  }

  lemma StarsInOrder(b: seq<Palace>, start: int, lead: Star)
    requires |b| == 9 && 0 <= start < 9
    ensures StarsFollowOrder(WithStars(b, Walk(Stars(b), start, StarOrder, lead - 1, 0)), start, lead)
  {
  }

  lemma StarsShape(l: seq<Option<Star>>, start: int, lead: Star)
    requires |l| == 9 && 0 <= start < 9
    ensures var r := Walk(l, start, StarOrder, lead - 1, 0);
      (forall p :: 0 <= p < 9 ==> r[p].Some?) && r[start] == Some(lead)
  {
    WalkComplete(l, start, StarOrder, lead - 1);
    StarOrderAt(lead - 1);
  }

  lemma StarsDistinct(l: seq<Option<Star>>, start: int, lead: Star)
    requires |l| == 9 && 0 <= start < 9
    ensures var r := Walk(l, start, StarOrder, lead - 1, 0);
      forall p, q :: 0 <= p < q < 9 ==> r[p] != r[q]
  {
    StarOrderDistinct();
    WalkDistinct(l, start, StarOrder, lead - 1);
  }

  // ---------------------------------------------------------------------
  // Gates

  /** The eight gates in their circular order. */
  const GateOrder: seq<Gate> := [1, 2, 3, 4, 5, 6, 7, 8]

  lemma GateOrderAt(k: int)
    requires 0 <= k < 8
    ensures GateOrder[k] == k + 1
  {
  }

  lemma GateOrderDistinct()
    ensures DistinctItems(GateOrder)
  {
  }

  /** The lead gate of each hour branch: branches 9-12 repeat the gates of
      branches 1-4; an unknown branch falls back to Xiu. */
  const GateMapping: map<int, Gate> := map[1 := 1, 2 := 2, 3 := 3, 4 := 4, 5 := 5, 6 := 6, 7 := 7, 8 := 8, 9 := 1, 10 := 2, 11 := 3, 12 := 4]

  function GateFor(hourBranch: Branch): (g: Gate)
    ensures g == (hourBranch - 1) % 8 + 1
  {
    if hourBranch in GateMapping then GateMapping[hourBranch] else Xiu
  }

  /** Round the ring from palace `start`, skipping the centre, the gates
      follow `GateOrder`, beginning with `lead`: the off-centre palace
      reached after passing `k` others holds the gate `k` places after
      `lead` in the order. */
  predicate GatesFollowOrder(r: seq<Palace>, start: int, lead: Gate)
    requires |r| == 9 && 0 <= start < 9
  {
    forall p :: 0 <= p < 9 && p != Centre ==>
      r[p].gate == Some(GateOrder[Ring(lead - 1 + Rank(start, Dist(start, p)), 8)])
  }

  /** The gates: a walk round the palaces from index `(ju - 1) mod 9` that
      skips the centre, the hour branch's gate first. The centre palace is
      untouched; every other palace gets a gate, no two the same. */
  function PlaceGates(b: seq<Palace>, ju: int, hourBranch: Branch): (r: seq<Palace>)
    requires |b| == 9
    ensures |r| == 9
    ensures r[Centre] == b[Centre]
    ensures forall p :: 0 <= p < 9 ==> r[p] == b[p].(gate := r[p].gate)
    ensures forall p :: 0 <= p < 9 && p != Centre ==> r[p].gate.Some?
    ensures forall p, q :: 0 <= p < q < 9 && p != Centre && q != Centre ==> r[p].gate != r[q].gate
    ensures r[FirstOffCentre((ju - 1) % 9)].gate == Some(GateFor(hourBranch))
    ensures GatesFollowOrder(r, (ju - 1) % 9, GateFor(hourBranch))
  {
    var start := (ju - 1) % 9;
    var lead := GateFor(hourBranch);
    GatesLaid(b, start, lead);
    WithGates(b, WalkSkip(Gates(b), start, GateOrder, lead - 1, 0, 0))
  }

  lemma GatesLaid(b: seq<Palace>, start: int, lead: Gate)
    requires |b| == 9 && 0 <= start < 9
    ensures var r := WithGates(b, WalkSkip(Gates(b), start, GateOrder, lead - 1, 0, 0));
      && r[Centre] == b[Centre]
      && (forall p :: 0 <= p < 9 && p != Centre ==> r[p].gate.Some?)
      && (forall p, q :: 0 <= p < q < 9 && p != Centre && q != Centre ==> r[p].gate != r[q].gate)
      && r[FirstOffCentre(start)].gate == Some(lead)
      && GatesFollowOrder(r, start, lead)
  {
    GatesShape(Gates(b), start, lead);
    GatesDistinct(Gates(b), start, lead);
    GatesInOrder(b, start, lead);
  }

  lemma GatesInOrder(b: seq<Palace>, start: int, lead: Gate)
    requires |b| == 9 && 0 <= start < 9
    ensures GatesFollowOrder(WithGates(b, WalkSkip(Gates(b), start, GateOrder, lead - 1, 0, 0)), start, lead)
  {
  }

  lemma GatesShape(l: seq<Option<Gate>>, start: int, lead: Gate)
    requires |l| == 9 && 0 <= start < 9
    ensures var r := WalkSkip(l, start, GateOrder, lead - 1, 0, 0);
      && r[Centre] == l[Centre]
      && (forall p :: 0 <= p < 9 && p != Centre ==> r[p].Some?)
      && r[FirstOffCentre(start)] == Some(lead)
  {
    WalkSkipShape(l, start, GateOrder, lead - 1);
    GateOrderAt(lead - 1);
  }

  lemma GatesDistinct(l: seq<Option<Gate>>, start: int, lead: Gate)
    requires |l| == 9 && 0 <= start < 9
    ensures var r := WalkSkip(l, start, GateOrder, lead - 1, 0, 0);
      forall p, q :: 0 <= p < q < 9 && p != Centre && q != Centre ==> r[p] != r[q]
  {
    GateOrderDistinct();
    WalkSkipDistinct(l, start, GateOrder, lead - 1);
  }

  /** Every gate lies in some off-centre palace. */
  lemma PlaceGatesCovers(b: seq<Palace>, ju: int, hourBranch: Branch, g: Gate) returns (p: int)
    requires |b| == 9
    ensures 0 <= p < 9 && p != Centre && PlaceGates(b, ju, hourBranch)[p].gate == Some(g)
  {
    p := GatesHit(Gates(b), (ju - 1) % 9, GateFor(hourBranch), g);
  }

  lemma GatesHit(l: seq<Option<Gate>>, start: int, lead: Gate, g: Gate) returns (p: int)
    requires |l| == 9 && 0 <= start < 9
    ensures 0 <= p < 9 && p != Centre && WalkSkip(l, start, GateOrder, lead - 1, 0, 0)[p] == Some(g)
  {
    p := WalkSkipHits(l, start, GateOrder, lead - 1, g - 1);
    GateOrderAt(g - 1);
  }

  // ---------------------------------------------------------------------
  // Deities

  /** The eight deities in the order of each polarity, Zhi Fu first. */
  function DeityOrder(ph: Phase): (s: seq<Deity>)
    ensures |s| == 8 && s[0] == ZhiFu
  {
    match ph
    case Yang => [1, 2, 3, 4, 5, 6, 8, 7]
    case Yin => [1, 7, 8, 6, 5, 4, 3, 2]
  }

  /** The first palace at or after `i` that holds a star. */
  function FirstStarred(b: seq<Palace>, i: nat): (r: Option<int>)
    requires |b| == 9 && i <= 9
    decreases 9 - i
    ensures r.Some? ==> i <= r.value < 9 && b[r.value].star.Some?
    ensures r.Some? ==> forall p :: i <= p < r.value ==> b[p].star.None?
    ensures r.None? ==> forall p :: i <= p < 9 ==> b[p].star.None?
  {
    if i == 9 then None
    else if b[i].star.Some? then Some(i)
    else FirstStarred(b, i + 1)
  }

  /** The deities: a centre-skipping walk from the first palace holding a
      star, Zhi Fu first. Without any star the board is left as it was;
      otherwise every off-centre palace gets a deity, no two the same. */
  function PlaceDeities(b: seq<Palace>, ph: Phase): (r: seq<Palace>)
    requires |b| == 9
    ensures FirstStarred(b, 0).None? ==> r == b
    ensures |r| == 9
    ensures r[Centre] == b[Centre]
    ensures forall p :: 0 <= p < 9 ==> r[p] == b[p].(deity := r[p].deity)
    ensures FirstStarred(b, 0).Some? ==>
      r[FirstOffCentre(FirstStarred(b, 0).value)].deity == Some(ZhiFu)
    ensures FirstStarred(b, 0).Some? ==>
      forall p :: 0 <= p < 9 && p != Centre ==> r[p].deity.Some?
    ensures FirstStarred(b, 0).Some? ==>
      forall p, q :: 0 <= p < q < 9 && p != Centre && q != Centre ==> r[p].deity != r[q].deity
  {
    match FirstStarred(b, 0)
    case None => b
    case Some(pos) =>
      DeityOrderDistinct(ph);
      WalkSkipShape(Deities(b), pos, DeityOrder(ph), 0);
      WalkSkipDistinct(Deities(b), pos, DeityOrder(ph), 0);
      WithDeities(b, WalkSkip(Deities(b), pos, DeityOrder(ph), 0, 0, 0))
  }

  /** A board without stars is left as it was by the deity pass. */
  lemma NoStarNoDeities(b: seq<Palace>, ph: Phase)
    requires |b| == 9 && forall i :: 0 <= i < 9 ==> b[i].star.None?
    ensures PlaceDeities(b, ph) == b
  {
    assert FirstStarred(b, 0).None?;
  }

  lemma DeityOrderDistinct(ph: Phase)
    ensures DistinctItems(DeityOrder(ph))
  {
  }

  /** Where each deity stands in the order of a polarity. */
  lemma DeityOrderHolds(ph: Phase, d: Deity) returns (j: int)
    ensures 0 <= j < 8 && DeityOrder(ph)[j] == d
  {
    var yang := [0, 1, 2, 3, 4, 5, 7, 6];
    var yin := [0, 7, 6, 5, 4, 3, 1, 2];
    j := if ph == Yang then yang[d - 1] else yin[d - 1];
  }

  /** With a star on the board every deity lies in some off-centre palace,
      so the eight off-centre palaces hold the eight deities. */
  lemma PlaceDeitiesCovers(b: seq<Palace>, ph: Phase, d: Deity) returns (p: int)
    requires |b| == 9 && exists i :: 0 <= i < 9 && b[i].star.Some?
    ensures 0 <= p < 9 && p != Centre && PlaceDeities(b, ph)[p].deity == Some(d)
  {
    assert FirstStarred(b, 0).Some?;
    p := DeitiesHit(Deities(b), FirstStarred(b, 0).value, ph, d);
  }

  lemma DeitiesHit(l: seq<Option<Deity>>, start: int, ph: Phase, d: Deity) returns (p: int)
    requires |l| == 9 && 0 <= start < 9
    ensures 0 <= p < 9 && p != Centre && WalkSkip(l, start, DeityOrder(ph), 0, 0, 0)[p] == Some(d)
  {
    var j := DeityOrderHolds(ph, d);
    p := WalkSkipHits(l, start, DeityOrder(ph), 0, j);
  }

  /** The deities follow the polarity's order round the board: the palace
      reached after passing `k` other off-centre palaces holds entry `k`. */
  lemma PlaceDeitiesFollowOrder(b: seq<Palace>, ph: Phase, p: int)
    requires |b| == 9 && FirstStarred(b, 0).Some? && 0 <= p < 9 && p != Centre
    ensures var pos := FirstStarred(b, 0).value;
      PlaceDeities(b, ph)[p].deity == Some(DeityOrder(ph)[Rank(pos, Dist(pos, p))])
  {
    var pos := FirstStarred(b, 0).value;
    var k := Rank(pos, Dist(pos, p));
    assert 0 <= k < 8;
    RingIsMod(k, 8);
  }

  // ---------------------------------------------------------------------
  // Flags and vitality

  /** The tomb-entry flag: set on the Kun palace when it holds Bing, Ding or
      Wu; every other flag and field is kept. */
  function MarkTombEntry(b: seq<Palace>): (r: seq<Palace>)
    requires |b| == 9
    ensures |r| == 9
    ensures forall p :: 0 <= p < 9 ==> r[p] == b[p].(isTombEntry := r[p].isTombEntry)
    ensures forall p :: 0 <= p < 9 ==>
      (r[p].isTombEntry <==> b[p].isTombEntry || (b[p].number == Kun && b[p].stem in {Some(Bing), Some(Ding), Some(Wu)}))
  {
    seq(9, p requires 0 <= p < 9 =>
      if b[p].stem in {Some(Bing), Some(Ding)} && b[p].number == Kun then b[p].(isTombEntry := true)
      else if b[p].stem == Some(Wu) && b[p].number == Kun then b[p].(isTombEntry := true)
      else b[p])
  }

  /** The twelve vitality stages, growth first. */
  const StageNames: seq<string> := ["长生", "沐浴", "冠带", "临官", "帝旺", "衰", "病", "死", "墓", "绝", "胎", "养"]

  /** The branch where each stem's growth stage lies. */
  const GrowthTable: seq<Branch> := [12, 8, 3, 10, 3, 10, 6, 1, 9, 4]

  function Growth(s: Stem): Branch { GrowthTable[s - 1] }

  /** The branch each palace index stands for when reckoning vitality. */
  const PalaceBranch: seq<Branch> := [1, 8, 3, 5, 5, 7, 10, 2, 7]

  /** Jia, Bing, Wu, Geng and Ren count the stages forwards. */
  predicate IsYangStem(s: Stem)
  {
    s in {Jia, Bing, Wu, Geng, Ren}
  }

  /** The branch reached from the growth branch after `k` stages, forwards
      for Yang stems and backwards for the others. */
  function BranchAtStage(s: Stem, k: int): Branch
  {
    if IsYangStem(s) then Wrap(Growth(s) + k, 12) else Wrap(Growth(s) - k, 12)
  }

  /** The vitality stage of stem `s` on branch `br`: the number of steps from
      the stem's growth branch to `br` in the stem's direction. Stage 0
      (growth) is exactly the growth branch, and walking that many stages
      from the growth branch gives back `br`. */
  function Vitality(s: Stem, br: Branch): (k: Stage)
    ensures k == 0 <==> br == Growth(s)
    ensures BranchAtStage(s, k) == br
  {
    StageInverse(s, br);
    if IsYangStem(s) then (br - Growth(s)) % 12 else (Growth(s) - br) % 12
  }

  lemma StageInverse(s: Stem, br: Branch)
    ensures IsYangStem(s) ==> Wrap(Growth(s) + (br - Growth(s)) % 12, 12) == br
    ensures !IsYangStem(s) ==> Wrap(Growth(s) - (Growth(s) - br) % 12, 12) == br
    ensures ((br - Growth(s)) % 12 == 0 <==> br == Growth(s)) && ((Growth(s) - br) % 12 == 0 <==> br == Growth(s))
  {
    var g := Growth(s);
    SmallMod(br - g, 12);
    SmallMod(g - br, 12);
    SmallWrap(g + (br - g) % 12);
    SmallWrap(g - (g - br) % 12);
  }

  /** Each branch is reached after exactly one number of stages in 0..11. */
  lemma StageUnique(s: Stem, br: Branch, k: int)
    requires 0 <= k < 12 && BranchAtStage(s, k) == br
    ensures k == Vitality(s, br)
  {
    var g := Growth(s);
    SmallMod(br - g, 12);
    SmallMod(g - br, 12);
    SmallWrap(g + k);
    SmallWrap(g - k);
  }

  /** The twelve-branch wrap of a number within one cycle of 1..12. */
  lemma SmallWrap(n: int)
    requires -12 < n <= 24
    ensures Wrap(n, 12) == (if n <= 0 then n + 12 else if n <= 12 then n else n - 12)
  {
    if n <= 0 {
      AddMultiple(n, 1, 12);
      WrapCongruent(n, n + 12, 12);
    } else if n <= 12 {
      WrapCongruent(n, n, 12);
    } else {
      AddMultiple(n - 12, 1, 12);
      WrapCongruent(n, n - 12, 12);
    }
  }

  /** The vitality pass: every palace holding a stem gets the stage of that
      stem on the palace's branch; a palace without a stem gets none. */
  function MarkVitality(b: seq<Palace>): (r: seq<Palace>)
    requires |b| == 9
    ensures |r| == 9
    ensures forall p :: 0 <= p < 9 ==> r[p] == b[p].(vitality := r[p].vitality)
    ensures forall p :: 0 <= p < 9 ==> (r[p].vitality.Some? <==> b[p].stem.Some?)
    ensures forall p :: 0 <= p < 9 && b[p].stem.Some? ==>
      BranchAtStage(b[p].stem.value, r[p].vitality.value) == PalaceBranch[p]
  {
    seq(9, p requires 0 <= p < 9 =>
      b[p].(vitality := if b[p].stem.Some? then Some(Vitality(b[p].stem.value, PalaceBranch[p])) else None))
  }

  // ---------------------------------------------------------------------
  // Travel horse and noble person

  const Unknown := "未知"

  /** The travel-horse branch of each day branch, by name. */
  const TravelHorseMap: map<string, string> := map[
    "寅" := "申", "申" := "寅", "巳" := "亥", "亥" := "巳",
    "辰" := "戌", "戌" := "辰", "丑" := "未", "未" := "丑",
    "子" := "午", "午" := "子", "卯" := "酉", "酉" := "卯"]

  function TravelHorse(dayBranch: string): (r: string)
    ensures dayBranch !in TravelHorseMap ==> r == Unknown
  {
    if dayBranch in TravelHorseMap then TravelHorseMap[dayBranch] else Unknown
  }

  /** The travel horse of every branch is the opposite branch, six steps
      on; so taking it twice returns the day branch and it never is the day
      branch itself. */
  lemma TravelHorseOpposite(b: Branch)
    ensures TravelHorse(BranchName(b)) == BranchName(Wrap(b + 6, 12))
    ensures Wrap(Wrap(b + 6, 12) + 6, 12) == b && Wrap(b + 6, 12) != b
  {
    var o := if b <= 6 then b + 6 else b - 6;
    WrapCongruent(b + 6, o, 12);
    WrapCongruent(o + 6, b, 12);
    assert TravelHorse(BranchName(b)) == BranchName(o) by {
      TravelHorseTable(b);
    }
  }

  lemma TravelHorseTable(b: Branch)
    ensures TravelHorse(BranchName(b)) == BranchName(if b <= 6 then b + 6 else b - 6)
  {
  }

  /** The two noble-person branches of each day stem, by name. */
  const NoblePersonMap: map<string, seq<string>> := map[
    "甲" := ["丑", "未"], "戊" := ["丑", "未"], "庚" := ["丑", "未"],
    "乙" := ["子", "申"], "己" := ["子", "申"],
    "丙" := ["亥", "酉"], "丁" := ["亥", "酉"],
    "壬" := ["巳", "卯"], "癸" := ["巳", "卯"],
    "辛" := ["寅", "午"]]

  function NoblePersons(dayStem: string): (r: seq<string>)
    ensures dayStem !in NoblePersonMap ==> r == [Unknown]
  {
    if dayStem in NoblePersonMap then NoblePersonMap[dayStem] else [Unknown]
  }

  /** Every stem has two different noble branches, mirror images of each
      other about the Chou-Wei axis (their indices sum to 10 modulo 12), and
      neither is Chen or Xu. */
  lemma NoblePair(s: Stem) returns (x: Branch, y: Branch)
    ensures NoblePersons(StemName(s)) == [BranchName(x), BranchName(y)]
    ensures x != y && (x + y) % 12 == 10
    ensures x != 5 && x != 11 && y != 5 && y != 11
  {
    if s == Jia || s == Wu || s == Geng { x, y := 2, 8; }
    else if s == Yi || s == Ji { x, y := 1, 9; }
    else if s == Bing || s == Ding { x, y := 12, 10; }
    else if s == Ren || s == Gui { x, y := 6, 4; }
    else { x, y := 3, 7; }
  }

  // ---------------------------------------------------------------------
  // The whole chart

  datatype Chart = Chart(
    pillars: FourPillars,
    phase: Phase,
    ju: int,
    palaces: seq<Palace>,
    travelHorse: string,
    noblePersons: seq<string>)

  /** The boards after each pass, in the order the chart is built. */
  function Ground(p: FourPillars, month: int): seq<Palace>
  {
    GroundPlate(InitialBoard(), Ju(p.day), PhaseOf(month))
  }

  function Heaven(p: FourPillars, month: int): seq<Palace>
  {
    HeavenPlate(Ground(p, month), p.hour.stem)
  }

  function Gated(p: FourPillars, month: int): seq<Palace>
  {
    PlaceGates(Heaven(p, month), Ju(p.day), p.hour.branch)
  }

  function Attended(p: FourPillars, month: int): seq<Palace>
  {
    PlaceDeities(Gated(p, month), PhaseOf(month))
  }

  /** The full layout from the four pillars and the civil month. */
  function PaiPan(p: FourPillars, month: int): (c: Chart)
    ensures |c.palaces| == 9
    ensures c.pillars == p && c.phase == PhaseOf(month) && c.ju == Ju(p.day)
  {
    var board := MarkVitality(MarkTombEntry(Attended(p, month)));
    Chart(p, PhaseOf(month), Ju(p.day), board,
          TravelHorse(BranchName(p.day.branch)), NoblePersons(StemName(p.day.stem)))
  }

  /** The chart of a civil date and clock time, or the day pillar's error
      for years outside 1901..2100. */
  function ComputeChart(d: Date, hour: int, minute: int): (r: Result<Chart, Error>)
    requires ValidDate(d)
    ensures r.Err? <==> !(FirstDayYear <= d.year <= LastDayYear)
    ensures r.Ok? ==> r.value.pillars == FourPillarsOf(d, hour, minute).value
    ensures r.Ok? ==> r.value.phase == PhaseOf(d.month)
    ensures r.Ok? ==> r.value == PaiPan(FourPillarsOf(d, hour, minute).value, d.month)
  {
    match FourPillarsOf(d, hour, minute)
    case Err(e) => Err(e)
    case Ok(p) => Ok(PaiPan(p, d.month))
  }

  // ---------------------------------------------------------------------
  // Properties of the whole chart

  /** What each later pass leaves alone: palace i of the chart has the
      ground plate's stem, the heaven plate's star, the gate pass's gate and
      the deity pass's deity, its own number, and the empty board's branch
      and unset marks. */
  lemma Layers(p: FourPillars, month: int, i: int)
    requires 0 <= i < 9
    ensures var c := PaiPan(p, month).palaces[i];
      c.number == i + 1 && c.stem == Ground(p, month)[i].stem && c.star == Heaven(p, month)[i].star
      && c.gate == Gated(p, month)[i].gate && c.deity == Attended(p, month)[i].deity
    ensures var c := PaiPan(p, month).palaces[i];
      !c.isClash && !c.isGateSuppressed && !c.isVoid && !c.travelHorse && !c.noblePerson && c.branch.None?
    ensures var a := Attended(p, month)[i];
      a.number == i + 1 && a.stem == Ground(p, month)[i].stem && !a.isTombEntry
      && PaiPan(p, month).palaces[i].isTombEntry == MarkTombEntry(Attended(p, month))[i].isTombEntry
  {
    var b0 := InitialBoard();
    var b1 := Ground(p, month);
    var b2 := Heaven(p, month);
    var b3 := Gated(p, month);
    var b4 := Attended(p, month);
    var b5 := MarkTombEntry(b4);
    var b6 := MarkVitality(b5);
    assert b1[i] == b0[i].(stem := b1[i].stem);
    assert b2[i] == b1[i].(star := b2[i].star);
    assert b3[i] == b2[i].(gate := b3[i].gate);
    assert b4[i] == b3[i].(deity := b4[i].deity);
    assert b5[i] == b4[i].(isTombEntry := b5[i].isTombEntry);
    assert b6[i] == b5[i].(vitality := b6[i].vitality);
  }

  /** Palace i keeps number i + 1, every palace holds a stem, no two the
      same, Jia nowhere, and Wu sits in the structure's start palace. */
  lemma ChartStems(p: FourPillars, month: int)
    ensures var c := PaiPan(p, month);
      forall i :: 0 <= i < 9 ==> c.palaces[i].number == i + 1 && c.palaces[i].stem == Ground(p, month)[i].stem
    ensures var c := PaiPan(p, month);
      forall i :: 0 <= i < 9 ==> c.palaces[i].stem.Some? && c.palaces[i].stem != Some(Jia)
    ensures var c := PaiPan(p, month);
      forall i, j :: 0 <= i < j < 9 ==> c.palaces[i].stem != c.palaces[j].stem
    ensures PaiPan(p, month).palaces[StartPalace(Ju(p.day)) - 1].stem == Some(Wu)
  {
    var c := PaiPan(p, month);
    var g := Ground(p, month);
    forall i | 0 <= i < 9
      ensures c.palaces[i].number == i + 1 && c.palaces[i].stem == g[i].stem
    {
      Layers(p, month, i);
    }
    forall i, j | 0 <= i < j < 9
      ensures c.palaces[i].stem != c.palaces[j].stem
    {
      assert g[i].stem != g[j].stem;
    }
  }

  /** When the hour stem is Jia no palace holds it, so the chart has no
      stars and, with no star to start from, no deities either. */
  lemma JiaHourHasNoStars(p: FourPillars, month: int)
    requires p.hour.stem == Jia
    ensures var c := PaiPan(p, month);
      forall i :: 0 <= i < 9 ==> c.palaces[i].star.None? && c.palaces[i].deity.None?
  {
    var c := PaiPan(p, month);
    var g := Ground(p, month);
    JiaHourSkipsHeaven(p, month);
    JiaHourSkipsDeities(p, month);
    forall i | 0 <= i < 9
      ensures c.palaces[i].star.None? && c.palaces[i].deity.None?
    {
      Layers(p, month, i);
      assert g[i].star == InitialBoard()[i].star;
    }
  }

  /** No palace holds Jia, so the heaven pass leaves the ground plate as it
      was. */
  lemma JiaHourSkipsHeaven(p: FourPillars, month: int)
    requires p.hour.stem == Jia
    ensures Heaven(p, month) == Ground(p, month)
  {
    assert FindStem(Ground(p, month), Jia, 0).None?;
  }

  /** With no star on the board the deity pass changes nothing, and no
      deity has been placed. */
  lemma JiaHourSkipsDeities(p: FourPillars, month: int)
    requires p.hour.stem == Jia
    ensures Attended(p, month) == Gated(p, month)
    ensures forall i :: 0 <= i < 9 ==> Gated(p, month)[i].deity.None?
  {
    var gt := Gated(p, month);
    forall i | 0 <= i < 9
      ensures gt[i].star.None? && gt[i].deity.None?
    {
      JiaHourGatedPalace(p, month, i);
    }
    NoStarNoDeities(gt, PhaseOf(month));
  }

  lemma JiaHourGatedPalace(p: FourPillars, month: int, i: int)
    requires p.hour.stem == Jia && 0 <= i < 9
    ensures Gated(p, month)[i].star.None? && Gated(p, month)[i].deity.None?
  {
    var g := Ground(p, month);
    var gt := Gated(p, month);
    JiaHourSkipsHeaven(p, month);
    assert gt[i].star == g[i].star && gt[i].deity == g[i].deity;
    assert g[i].star == InitialBoard()[i].star && g[i].deity == InitialBoard()[i].deity;
  }

  /** Any other hour stem lies in some palace of the ground plate. */
  lemma HourStemFound(p: FourPillars, month: int)
    requires p.hour.stem != Jia
    ensures FindStem(Ground(p, month), p.hour.stem, 0).Some?
  {
    var q := GroundPlateCovers(InitialBoard(), Ju(p.day), PhaseOf(month), p.hour.stem);
  }

  /** For any other hour stem every palace gets a star, no two the same,
      and the palace holding the hour stem gets the hour stem's star. */
  lemma ChartStars(p: FourPillars, month: int) returns (lead: int)
    requires p.hour.stem != Jia
    ensures 0 <= lead < 9
    ensures var c := PaiPan(p, month);
      c.palaces[lead].stem == Some(p.hour.stem) && c.palaces[lead].star == Some(StarFor(p.hour.stem))
    ensures var c := PaiPan(p, month);
      forall i :: 0 <= i < 9 ==> c.palaces[i].star.Some?
    ensures var c := PaiPan(p, month);
      forall i, j :: 0 <= i < j < 9 ==> c.palaces[i].star != c.palaces[j].star
  {
    var c := PaiPan(p, month);
    var h := Heaven(p, month);
    HourStemFound(p, month);
    lead := FindStem(Ground(p, month), p.hour.stem, 0).value;
    forall i | 0 <= i < 9
      ensures c.palaces[i].star == h[i].star
    {
      Layers(p, month, i);
    }
    forall i, j | 0 <= i < j < 9
      ensures c.palaces[i].star != c.palaces[j].star
    {
      assert h[i].star != h[j].star;
    }
    Layers(p, month, lead);
  }

  /** For any other hour stem the first palace (Kan) holds a star, so the
      deities start there with Zhi Fu; every palace but the centre gets a
      deity, no two the same. */
  lemma ChartDeities(p: FourPillars, month: int)
    requires p.hour.stem != Jia
    ensures var c := PaiPan(p, month);
      c.palaces[Centre].deity.None? && c.palaces[0].deity == Some(ZhiFu)
    ensures var c := PaiPan(p, month);
      forall i :: 0 <= i < 9 && i != Centre ==> c.palaces[i].deity.Some?
    ensures var c := PaiPan(p, month);
      forall i, j :: 0 <= i < j < 9 && i != Centre && j != Centre ==> c.palaces[i].deity != c.palaces[j].deity
  {
    var c := PaiPan(p, month);
    var a := Attended(p, month);
    HourStemFound(p, month);
    assert Gated(p, month)[0].star == Heaven(p, month)[0].star;
    assert FirstStarred(Gated(p, month), 0) == Some(0);
    forall i | 0 <= i < 9
      ensures c.palaces[i].deity == a[i].deity
    {
      Layers(p, month, i);
    }
    forall i, j | 0 <= i < j < 9 && i != Centre && j != Centre
      ensures c.palaces[i].deity != c.palaces[j].deity
    {
      assert a[i].deity != a[j].deity;
    }
  }

  /** Every palace but the centre gets a gate, no two the same. */
  lemma ChartGates(p: FourPillars, month: int)
    ensures var c := PaiPan(p, month);
      c.palaces[Centre].gate.None? && forall i :: 0 <= i < 9 && i != Centre ==> c.palaces[i].gate.Some?
    ensures var c := PaiPan(p, month);
      forall i, j :: 0 <= i < j < 9 && i != Centre && j != Centre ==> c.palaces[i].gate != c.palaces[j].gate
  {
    var c := PaiPan(p, month);
    var gt := Gated(p, month);
    assert Heaven(p, month)[Centre].gate == Ground(p, month)[Centre].gate == InitialBoard()[Centre].gate;
    forall i | 0 <= i < 9
      ensures c.palaces[i].gate == gt[i].gate
    {
      Layers(p, month, i);
    }
    forall i, j | 0 <= i < j < 9 && i != Centre && j != Centre
      ensures c.palaces[i].gate != c.palaces[j].gate
    {
      assert gt[i].gate != gt[j].gate;
    }
  }

  /** The hour branch's gate stands in palace index ju - 1, or in the next
      palace when that is the centre. */
  lemma ChartLeadGate(p: FourPillars, month: int) returns (lead: int)
    ensures lead == (if Ju(p.day) - 1 == Centre then Centre + 1 else Ju(p.day) - 1)
    ensures 0 <= lead < 9 && PaiPan(p, month).palaces[lead].gate == Some(GateFor(p.hour.branch))
  {
    lead := FirstOffCentre(Ju(p.day) - 1);
    GatedLead(p, month);
    Layers(p, month, lead);
  }

  lemma GatedLead(p: FourPillars, month: int)
    ensures Gated(p, month)[FirstOffCentre(Ju(p.day) - 1)].gate == Some(GateFor(p.hour.branch))
  {
    var ju := Ju(p.day);
    SmallMod(ju - 1, 9);
    assert (ju - 1) % 9 == ju - 1;
  }

  /** The tomb-entry flag of one palace: set exactly when it is Kun and
      holds Bing, Ding or Wu. */
  lemma TombAt(p: FourPillars, month: int, i: int)
    requires 0 <= i < 9
    ensures var c := PaiPan(p, month).palaces[i];
      c.isTombEntry <==> i == KunIndex && c.stem in {Some(Bing), Some(Ding), Some(Wu)}
  {
    Layers(p, month, i);
  }

  /** Wu starts in palace 4, 1 or 7, so it never stands in Kun. */
  lemma WuNeverInKun(p: FourPillars, month: int)
    ensures PaiPan(p, month).palaces[KunIndex].stem != Some(Wu)
  {
    var g := Ground(p, month);
    var start := StartPalace(Ju(p.day)) - 1;
    assert start != KunIndex;
    assert g[start].stem != g[KunIndex].stem;
    Layers(p, month, KunIndex);
  }

  /** The tomb-entry flag is set exactly on Kun holding Bing or Ding; Wu,
      though also checked, never reaches Kun. */
  lemma ChartTombEntry(p: FourPillars, month: int)
    ensures var c := PaiPan(p, month);
      forall i :: 0 <= i < 9 ==>
        (c.palaces[i].isTombEntry <==> i == KunIndex && c.palaces[i].stem in {Some(Bing), Some(Ding)})
    ensures PaiPan(p, month).palaces[KunIndex].stem != Some(Wu)
  {
    var c := PaiPan(p, month);
    WuNeverInKun(p, month);
    forall i | 0 <= i < 9
      ensures c.palaces[i].isTombEntry <==> i == KunIndex && c.palaces[i].stem in {Some(Bing), Some(Ding)}
    {
      TombAt(p, month, i);
    }
  }

  /** Which charts flag Kun: Yang structures 1-3 and Yin structures 4-6,
      which both bring Bing there; every other structure puts Ji or Ren in
      Kun, and Ding never reaches it. */
  lemma TombEntryByStructure(p: FourPillars, month: int)
    ensures PaiPan(p, month).palaces[KunIndex].isTombEntry <==>
      (PhaseOf(month) == Yang && Ju(p.day) <= 3) || (PhaseOf(month) == Yin && 4 <= Ju(p.day) <= 6)
  {
    var g := Ground(p, month);
    var ju := Ju(p.day);
    var k := Dist(StartPalace(ju) - 1, KunIndex);
    TombAt(p, month, KunIndex);
    WuNeverInKun(p, month);
    Layers(p, month, KunIndex);
    assert g[KunIndex].stem == Some(StemSequence(PhaseOf(month))[k]);
    KunStem(ju, PhaseOf(month));
  }

  /** Wu starts at index 3 (palace 4) for structures 1-3, index 0 (palace 1)
      for 4-6 and index 6 (palace 7) for 7-9. */
  lemma StartIndexBands(ju: int)
    requires 1 <= ju <= 9
    ensures StartPalace(ju) - 1 == (if ju <= 3 then 3 else if ju <= 6 then 0 else 6)
  {
    assert ju == 1 || ju == 2 || ju == 3 || ju == 4 || ju == 5 || ju == 6 || ju == 7 || ju == 8 || ju == 9;
  }

  /** The stem the ground plate puts in Kun, by structure and polarity. */
  lemma KunStem(ju: int, ph: Phase)
    requires 1 <= ju <= 9
    ensures var s := StemSequence(ph)[Dist(StartPalace(ju) - 1, KunIndex)];
      s == Bing || s == Ding <==> (ph == Yang && ju <= 3) || (ph == Yin && 4 <= ju <= 6)
  {
    var start := StartPalace(ju) - 1;
    StartIndexBands(ju);
    assert Dist(start, KunIndex) == (if ju <= 3 then 7 else if ju <= 6 then 1 else 4);
  }

  /** Every palace holding a stem (all of them) gets its vitality stage on
      the palace's branch; clash, gate suppression, void, the per-palace
      travel-horse and noble-person marks and the palace branch are never
      set. */
  lemma ChartFlags(p: FourPillars, month: int)
    ensures var c := PaiPan(p, month);
      forall i :: 0 <= i < 9 ==>
        c.palaces[i].vitality.Some? && BranchAtStage(c.palaces[i].stem.value, c.palaces[i].vitality.value) == PalaceBranch[i]
    ensures var c := PaiPan(p, month);
      forall i :: 0 <= i < 9 ==>
        !c.palaces[i].isClash && !c.palaces[i].isGateSuppressed && !c.palaces[i].isVoid
        && !c.palaces[i].travelHorse && !c.palaces[i].noblePerson && c.palaces[i].branch.None?
  {
  }

  /** The chart's travel horse is the branch opposite the day branch and its
      noble persons are the day stem's two noble branches. */
  lemma ChartDayBranches(p: FourPillars, month: int)
    ensures PaiPan(p, month).travelHorse == BranchName(Wrap(p.day.branch + 6, 12))
    ensures exists x: Branch, y: Branch ::
      (PaiPan(p, month).noblePersons == [BranchName(x), BranchName(y)] && x != y && (x + y) % 12 == 10)
  {
    TravelHorseOpposite(p.day.branch);
    var x, y := NoblePair(p.day.stem);
  }
}
