/** The sexagenary cycle: 1-based cyclic indices with the "0 becomes N"
    wrap the calculators use everywhere, and stem/branch pairs. */
module Cycle {

  import opened Constants

  /** `n mod k`, with a zero remainder read as `k`: the 1-based position of
      `n` in a cycle of length `k`. */
  function Wrap(n: int, k: int): (r: int)
    requires k > 0
    ensures 1 <= r <= k
    ensures r % k == n % k
  {
    if n % k == 0 then k else n % k
  }

  /** A stem/branch pair. */
  datatype Pillar = Pillar(stem: Stem, branch: Branch)

  /** Only pairs whose stem and branch have the same parity occur in the
      sexagenary cycle. */
  predicate ValidPair(p: Pillar)
  {
    p.stem % 2 == p.branch % 2
  }

  /** The `n`-th pair of the sixty-pair cycle (1 is Jia-Zi). */
  function PairAt(n: int): (p: Pillar)
    ensures ValidPair(p)
    ensures p.stem % 10 == n % 10 && p.branch % 12 == n % 12
  {
    WrapParity(n);
    Pillar(Wrap(n, 10), Wrap(n, 12))
  }

  /** The position in 1..60 of a valid pair: the inverse of `PairAt`. */
  function IndexOf(p: Pillar): (n: int)
    requires ValidPair(p)
    ensures 1 <= n <= 60
    ensures PairAt(n) == p
  {
    IndexOfSolves(p);
    Wrap(6 * p.stem - 5 * p.branch, 60)
  }

  lemma IndexOfSolves(p: Pillar)
    requires ValidPair(p)
    ensures PairAt(Wrap(6 * p.stem - 5 * p.branch, 60)) == p
  {
    var m := 6 * p.stem - 5 * p.branch;
    var w := Wrap(m, 60);
    ResidueOf60(m);
    SixMinusFive(p.stem, p.branch);
    WrapCongruent(w, p.stem, 10);
    WrapCongruent(w, p.branch, 12);
  }

  /** When `s` and `b` have the same parity they differ by an even number
      `2h`, so `6s - 5b` is both `s + 10h` and `b + 12h`. */
  lemma SixMinusFive(s: int, b: int)
    requires s % 2 == b % 2
    ensures (6 * s - 5 * b) % 10 == s % 10 && (6 * s - 5 * b) % 12 == b % 12
  {
    var h := (s - b) / 2;
    assert s - b == 2 * h;
    Shift(s, h);
    Shift(b, h);
  }

  /** Congruent numbers land on the same position, and a position already
      in 1..k is its own wrap. */
  lemma WrapCongruent(n: int, x: int, k: int)
    requires k > 0 && 1 <= x <= k && n % k == x % k
    ensures Wrap(n, k) == x
  {
    if x < k {
      ModUnique(x, 0, x, k);
    } else {
      ModUnique(x, 1, 0, k);
    }
  }

  lemma Shift(a: int, t: int)
    ensures (a + 10 * t) % 10 == a % 10 && (a + 12 * t) % 12 == a % 12
  {
    AddMultiple(a, t, 10);
    AddMultiple(a, t, 12);
  }

  /** Residues modulo 10, 12 and 2 are determined by the residue modulo 60. */
  lemma ResidueOf60(n: int)
    ensures (n % 60) % 10 == n % 10 && (n % 60) % 12 == n % 12 && (n % 60) % 2 == n % 2
    ensures Wrap(n, 60) % 10 == n % 10 && Wrap(n, 60) % 12 == n % 12
  {
    var q := n / 60;
    assert n == n % 60 + 60 * q;
    AddMultiple(n % 60, 6 * q, 10);
    AddMultiple(n % 60, 5 * q, 12);
    AddMultiple(n % 60, 30 * q, 2);
    AddMultiple(0, 6, 10);
    AddMultiple(0, 5, 12);
  }

  /** The even-length wraps keep the parity of their argument. */
  lemma WrapParity(n: int)
    ensures Wrap(n, 10) % 2 == n % 2 && Wrap(n, 12) % 2 == n % 2
  {
    assert n == n % 10 + 10 * (n / 10);
    assert n == n % 12 + 12 * (n / 12);
    AddMultiple(n % 10, 5 * (n / 10), 2);
    AddMultiple(n % 12, 6 * (n / 12), 2);
  }

  /** Two positions name the same pair exactly when they are congruent
      modulo 60. */
  lemma PairAtInjective(a: int, b: int)
    ensures PairAt(a) == PairAt(b) <==> a % 60 == b % 60
  {
    ResidueOf60(a);
    ResidueOf60(b);
    if PairAt(a) == PairAt(b) {
      var x := (a - b) % 60;
      DiffMod(a, b, 10);
      DiffMod(a, b, 12);
      ResidueOf60(a - b);
      CommonMultiple(x);
      DiffMod(a, b, 60);
    }
  }

  /** Two numbers are congruent exactly when their difference is a multiple. */
  lemma DiffMod(a: int, b: int, k: int)
    requires k > 0
    ensures (a - b) % k == 0 <==> a % k == b % k
  {
    var t := (a - b) / k;
    assert a - b == k * t + (a - b) % k;
    if (a - b) % k == 0 {
      AddMultiple(b, t, k);
    }
    if a % k == b % k {
      var qa, qb := a / k, b / k;
      assert a == k * qa + a % k && b == k * qb + b % k;
      assert a - b == k * (qa - qb) + 0;
      ModUnique(a - b, qa - qb, 0, k);
    }
  }

  /** The index of the `n`-th pair is `n` brought into 1..60. */
  lemma IndexOfPairAt(n: int)
    ensures IndexOf(PairAt(n)) == Wrap(n, 60)
  {
    var m := IndexOf(PairAt(n));
    PairAtInjective(m, n);
  }

  /** 60 is the least common multiple of 10 and 12. */
  lemma CommonMultiple(x: int)
    requires 0 <= x < 60 && x % 10 == 0 && x % 12 == 0
    ensures x == 0
  {
    var u := x / 10;
    assert x == 10 * u && 0 <= u < 6;
    assert u == 0 || u == 1 || u == 2 || u == 3 || u == 4 || u == 5;
  }

  /** Wraps agree exactly on congruent arguments. */
  lemma WrapEquiv(a: int, b: int, k: int)
    requires k > 0
    ensures Wrap(a, k) == Wrap(b, k) <==> a % k == b % k
  {
  }

  /** Wrapping first and adding afterwards lands on the same position. */
  lemma WrapShift(a: int, t: int, k: int)
    requires k > 0
    ensures Wrap(Wrap(a, k) + t, k) == Wrap(a + t, k)
  {
    DiffMod(Wrap(a, k), a, k);
    DiffMod(Wrap(a, k) + t, a + t, k);
    WrapEquiv(Wrap(a, k) + t, a + t, k);
  }

  // Euclidean division facts, stated once for any positive modulus.

  /** A remainder of a number less than one modulus away from 0. */
  lemma SmallMod(x: int, k: int)
    requires k > 0 && -k < x < k
    ensures x % k == (if x >= 0 then x else x + k)
  {
    if x >= 0 {
      ModUnique(x, 0, x, k);
    } else {
      ModUnique(x, -1, x + k, k);
    }
  }

  /** Parity survives adding an even number. */
  lemma AddEven(a: int, m: int)
    ensures (a + 2 * m) % 2 == a % 2
  {
    AddMultiple(a, m, 2);
  }

  lemma AddMultiple(a: int, t: int, k: int)
    requires k > 0
    ensures (a + k * t) % k == a % k
  {
    var q := a / k;
    assert a == k * q + a % k;
    assert a + k * t == k * (q + t) + a % k;
    ModUnique(a + k * t, q + t, a % k, k);
  }

  lemma ModUnique(n: int, q: int, r: int, k: int)
    requires k > 0 && 0 <= r < k && n == k * q + r
    ensures n % k == r && n / k == q
  {
    var q' := n / k;
    var r' := n % k;
    assert n == k * q' + r';
    assert k * (q - q') == r' - r;
    if q > q' { MulAtLeast(k, q - q'); }
    if q < q' { MulAtLeast(k, q' - q); }
  }

  lemma MulAtLeast(k: int, d: int)
    requires k > 0 && d >= 1
    ensures k * d >= k
    decreases d
  {
    if d > 1 {
      MulAtLeast(k, d - 1);
      assert k * d == k * (d - 1) + k;
    }
  }
}
