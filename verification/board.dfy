/** The nine-palace board: nine palace records in index order 0..8, index 4
    being the centre (the fifth palace, Zhong), and the two circular
    placement walks every layer of the chart is laid out with. */
module Board {

  import opened Options
  import opened Constants
  import opened Cycle

  /** Index of the centre palace, which gates and deities skip. */
  const Centre := 4
  /** Index of the Kun palace (palace number 2). */
  const KunIndex := 1

  /** A position in the twelve-stage vitality sequence (0 is growth). */
  type Stage = k: int | 0 <= k < 12 witness 0

  /** One palace. `branch` and the per-palace `travelHorse`/`noblePerson`
      marks exist on every palace but no pass ever sets them, and neither
      do the clash, gate-suppression and void flags. */
  datatype Palace = Palace(
    number: PalaceNumber,
    stem: Option<Stem>,
    star: Option<Star>,
    gate: Option<Gate>,
    deity: Option<Deity>,
    branch: Option<Branch>,
    isTombEntry: bool,
    isClash: bool,
    isGateSuppressed: bool,
    isVoid: bool,
    vitality: Option<Stage>,
    travelHorse: bool,
    noblePerson: bool)

  /** A palace as first created: its number and nothing else. */
  function EmptyPalace(number: PalaceNumber): Palace
  {
    Palace(number, None, None, None, None, None, false, false, false, false, None, false, false)
  }

  /** The initial board: palace i has number i + 1, so index 1 is Kun and
      index 4 is Zhong, the centre. */
  function InitialBoard(): (b: seq<Palace>)
    ensures |b| == 9
    ensures forall i :: 0 <= i < 9 ==> b[i] == EmptyPalace(i + 1)
    ensures b[KunIndex].number == Kun && b[Centre].number == Zhong
    ensures PalaceNames[b[KunIndex].number - 1] == "坤二宫" && PalaceNames[b[Centre].number - 1] == "中五宫"
  {
    seq(9, i requires 0 <= i < 9 => EmptyPalace(i + 1))
  }

  // ---------------------------------------------------------------------
  // Layers: one field of every palace, read and written as a sequence.

  function Stems(b: seq<Palace>): (l: seq<Option<Stem>>)
    requires |b| == 9
    ensures |l| == 9 && forall i :: 0 <= i < 9 ==> l[i] == b[i].stem
  {
    seq(9, i requires 0 <= i < 9 => b[i].stem)
  }

  function WithStems(b: seq<Palace>, l: seq<Option<Stem>>): (r: seq<Palace>)
    requires |b| == 9 && |l| == 9
    ensures |r| == 9 && forall i :: 0 <= i < 9 ==> r[i] == b[i].(stem := l[i])
  {
    seq(9, i requires 0 <= i < 9 => b[i].(stem := l[i]))
  }

  function Stars(b: seq<Palace>): (l: seq<Option<Star>>)
    requires |b| == 9
    ensures |l| == 9 && forall i :: 0 <= i < 9 ==> l[i] == b[i].star
  {
    seq(9, i requires 0 <= i < 9 => b[i].star)
  }

  function WithStars(b: seq<Palace>, l: seq<Option<Star>>): (r: seq<Palace>)
    requires |b| == 9 && |l| == 9
    ensures |r| == 9 && forall i :: 0 <= i < 9 ==> r[i] == b[i].(star := l[i])
  {
    seq(9, i requires 0 <= i < 9 => b[i].(star := l[i]))
  }

  function Gates(b: seq<Palace>): (l: seq<Option<Gate>>)
    requires |b| == 9
    ensures |l| == 9 && forall i :: 0 <= i < 9 ==> l[i] == b[i].gate
  {
    seq(9, i requires 0 <= i < 9 => b[i].gate)
  }

  function WithGates(b: seq<Palace>, l: seq<Option<Gate>>): (r: seq<Palace>)
    requires |b| == 9 && |l| == 9
    ensures |r| == 9 && forall i :: 0 <= i < 9 ==> r[i] == b[i].(gate := l[i])
  {
    seq(9, i requires 0 <= i < 9 => b[i].(gate := l[i]))
  }

  function Deities(b: seq<Palace>): (l: seq<Option<Deity>>)
    requires |b| == 9
    ensures |l| == 9 && forall i :: 0 <= i < 9 ==> l[i] == b[i].deity
  {
    seq(9, i requires 0 <= i < 9 => b[i].deity)
  }

  function WithDeities(b: seq<Palace>, l: seq<Option<Deity>>): (r: seq<Palace>)
    requires |b| == 9 && |l| == 9
    ensures |r| == 9 && forall i :: 0 <= i < 9 ==> r[i] == b[i].(deity := l[i])
  {
    seq(9, i requires 0 <= i < 9 => b[i].(deity := l[i]))
  }

  // ---------------------------------------------------------------------
  // Walks

  /** `x mod k` for `x` in 0..2k-1, where the remainder is at most one
      subtraction: every index the walks compute is of that form. */
  function Ring(x: int, k: int): (r: int)
    requires k > 0 && 0 <= x < 2 * k
    ensures 0 <= r < k
  {
    if x < k then x else x - k
  }

  /** On its range the single subtraction is the remainder. */
  lemma RingIsMod(x: int, k: int)
    requires k > 0 && 0 <= x < 2 * k
    ensures Ring(x, k) == x % k
  {
    ModUnique(x, if x < k then 0 else 1, Ring(x, k), k);
  }

  /** How many steps forward round the ring palace `p` lies from `start`. */
  function Dist(start: int, p: int): (d: int)
    requires 0 <= start < 9 && 0 <= p < 9
    ensures 0 <= d < 9
  {
    Ring(p - start + 9, 9)
  }

  /** Step `i` of a walk from `start` lands on palace `p` exactly when `p`
      lies `i` steps from `start`. */
  lemma DistStep(start: int, i: int)
    requires 0 <= start < 9 && 0 <= i < 9
    ensures forall p :: 0 <= p < 9 ==> (Dist(start, p) == i <==> p == Ring(start + i, 9))
  {
    forall p | 0 <= p < 9
      ensures Dist(start, p) == i <==> p == Ring(start + i, 9)
    {
      DistAt(start, i, p);
    }
  }

  /** `DistStep` for one palace. */
  lemma DistAt(start: int, i: int, p: int)
    requires 0 <= start < 9 && 0 <= i < 9 && 0 <= p < 9
    ensures Dist(start, p) == i <==> p == Ring(start + i, 9)
  {
  }

  /** The nine-step walk from `start`, from step `i` on: step j writes
      `items[(offset + j) mod 9]` into palace `(start + j) mod 9`. Palaces
      already passed keep what the earlier steps wrote. */
  function Walk<T>(layer: seq<Option<T>>, start: int, items: seq<T>, offset: int, i: nat): (r: seq<Option<T>>)
    requires |layer| == 9 && |items| == 9 && 0 <= start < 9 && 0 <= offset < 9 && i <= 9
    decreases 9 - i
    ensures |r| == 9
    ensures forall p :: 0 <= p < 9 ==>
      r[p] == (if Dist(start, p) < i then layer[p] else Some(items[Ring(offset + Dist(start, p), 9)]))
  {
    if i == 9 then layer
    else
      var next := layer[Ring(start + i, 9) := Some(items[Ring(offset + i, 9)])];
      var r := Walk(next, start, items, offset, i + 1);
      assert forall p :: 0 <= p < 9 ==>
        r[p] == (if Dist(start, p) < i then layer[p] else Some(items[Ring(offset + Dist(start, p), 9)])) by {
        forall p | 0 <= p < 9
          ensures r[p] == (if Dist(start, p) < i then layer[p] else Some(items[Ring(offset + Dist(start, p), 9)]))
        {
          DistAt(start, i, p);
        }
      }
      r
  }

  /** Number of off-centre palaces among the first `d` steps of a walk from
      `start`: the count a centre-skipping walk has reached at step `d`. */
  function Rank(start: int, d: int): int
    requires 0 <= start < 9
  {
    d - (if Dist(start, Centre) < d then 1 else 0)
  }

  /** The centre-skipping walk from `start`, from step `i` on (with `count`
      off-centre palaces already filled): step j writes
      `items[(offset + count) mod 8]` into palace `(start + j) mod 9` unless
      that is the centre, and only then advances the count. */
  function WalkSkip<T>(layer: seq<Option<T>>, start: int, items: seq<T>, offset: int, i: nat, count: int): (r: seq<Option<T>>)
    requires |layer| == 9 && |items| == 8 && 0 <= start < 9 && 0 <= offset < 8 && i <= 9
    requires count == Rank(start, i)
    decreases 9 - i
    ensures |r| == 9
    ensures forall p :: 0 <= p < 9 ==>
      r[p] == (if p == Centre || Dist(start, p) < i then layer[p]
               else Some(items[Ring(offset + Rank(start, Dist(start, p)), 8)]))
  {
    if i == 9 then layer
    else
      var q := Ring(start + i, 9);
      var r :=
        if q != Centre then
          WalkSkip(layer[q := Some(items[Ring(offset + count, 8)])], start, items, offset, i + 1, count + 1)
        else
          WalkSkip(layer, start, items, offset, i + 1, count);
      assert forall p :: 0 <= p < 9 ==>
        r[p] == (if p == Centre || Dist(start, p) < i then layer[p]
                 else Some(items[Ring(offset + Rank(start, Dist(start, p)), 8)])) by {
        forall p | 0 <= p < 9
          ensures r[p] == (if p == Centre || Dist(start, p) < i then layer[p]
                           else Some(items[Ring(offset + Rank(start, Dist(start, p)), 8)]))
        {
          DistAt(start, i, p);
        }
      }
      r
  }

  /** The first off-centre palace a walk from `start` reaches. */
  function FirstOffCentre(start: int): int
  {
    if start == Centre then Centre + 1 else start
  }

  // ---------------------------------------------------------------------
  // Coverage of the walks

  ghost predicate DistinctItems<T>(items: seq<T>)
  {
    forall i, j :: 0 <= i < j < |items| ==> items[i] != items[j]
  }

  /** A complete nine-step walk in closed form: every palace gets the item
      as many places past `offset` as the palace lies past `start`, so every
      palace is filled and `start` gets the item at `offset`. */
  lemma WalkComplete<T>(layer: seq<Option<T>>, start: int, items: seq<T>, offset: int)
    requires |layer| == 9 && |items| == 9 && 0 <= start < 9 && 0 <= offset < 9
    ensures forall p :: 0 <= p < 9 ==>
      Walk(layer, start, items, offset, 0)[p] == Some(items[Ring(offset + Dist(start, p), 9)])
    ensures Walk(layer, start, items, offset, 0)[start] == Some(items[offset])
  {
    assert Dist(start, start) == 0;
  }

  /** A complete walk over pairwise different items leaves pairwise
      different entries. */
  lemma WalkDistinct<T>(layer: seq<Option<T>>, start: int, items: seq<T>, offset: int)
    requires |layer| == 9 && |items| == 9 && 0 <= start < 9 && 0 <= offset < 9 && DistinctItems(items)
    ensures var r := Walk(layer, start, items, offset, 0);
      forall p, q :: 0 <= p < q < 9 ==> r[p] != r[q]
  {
    var r := Walk(layer, start, items, offset, 0);
    forall p, q | 0 <= p < q < 9
      ensures r[p] != r[q]
    {
      var x, y := Ring(offset + Dist(start, p), 9), Ring(offset + Dist(start, q), 9);
      assert x != y;
      assert items[x] != items[y];
    }
  }

  /** A complete walk places item `j` in the palace returned. */
  lemma WalkHits<T>(layer: seq<Option<T>>, start: int, items: seq<T>, offset: int, j: int) returns (p: int)
    requires |layer| == 9 && |items| == 9 && 0 <= start < 9 && 0 <= offset < 9 && 0 <= j < 9
    ensures 0 <= p < 9 && Walk(layer, start, items, offset, 0)[p] == Some(items[j])
  {
    var d := Ring(j - offset + 9, 9);
    p := Ring(start + d, 9);
    DistStep(start, d);
  }

  /** A complete centre-skipping walk leaves the centre alone, fills every
      other palace, and gives the first off-centre palace the item at
      `offset`. */
  lemma WalkSkipShape<T>(layer: seq<Option<T>>, start: int, items: seq<T>, offset: int)
    requires |layer| == 9 && |items| == 8 && 0 <= start < 9 && 0 <= offset < 8
    ensures var r := WalkSkip(layer, start, items, offset, 0, 0);
      r[Centre] == layer[Centre] && forall p :: 0 <= p < 9 && p != Centre ==> r[p].Some?
    ensures WalkSkip(layer, start, items, offset, 0, 0)[FirstOffCentre(start)] == Some(items[offset])
  {
    assert Dist(start, FirstOffCentre(start)) == (if start == Centre then 1 else 0);
  }

  /** A complete centre-skipping walk over pairwise different items leaves
      pairwise different entries in the off-centre palaces. */
  lemma WalkSkipDistinct<T>(layer: seq<Option<T>>, start: int, items: seq<T>, offset: int)
    requires |layer| == 9 && |items| == 8 && 0 <= start < 9 && 0 <= offset < 8 && DistinctItems(items)
    ensures var r := WalkSkip(layer, start, items, offset, 0, 0);
      forall p, q :: 0 <= p < q < 9 && p != Centre && q != Centre ==> r[p] != r[q]
  {
    var r := WalkSkip(layer, start, items, offset, 0, 0);
    forall p, q | 0 <= p < q < 9 && p != Centre && q != Centre
      ensures r[p] != r[q]
    {
      var x := Ring(offset + Rank(start, Dist(start, p)), 8);
      var y := Ring(offset + Rank(start, Dist(start, q)), 8);
      assert x != y;
      assert items[x] != items[y];
    }
  }

  /** A complete centre-skipping walk places item `j` in the off-centre
      palace returned. */
  lemma WalkSkipHits<T>(layer: seq<Option<T>>, start: int, items: seq<T>, offset: int, j: int) returns (p: int)
    requires |layer| == 9 && |items| == 8 && 0 <= start < 9 && 0 <= offset < 8 && 0 <= j < 8
    ensures 0 <= p < 9 && p != Centre && WalkSkip(layer, start, items, offset, 0, 0)[p] == Some(items[j])
  {
    var c := Dist(start, Centre);
    var k := Ring(j - offset + 8, 8);
    var d := if k < c then k else k + 1;
    p := Ring(start + d, 9);
    DistStep(start, d);
    DistStep(start, c);
  }
}
