/** The simplified 24-solar-term lookup: a fixed (month, day) table with a
    one-day correction in years divisible by four, and a scan that picks the
    term a date falls in without ever wrapping into the previous year. */
module SolarTerms {

  import opened Constants
  import opened Calendar

  /** The date of term `i` in `year`: the table's (month, day), one day
      earlier when `year` is divisible by 4 and `i >= 2`. */
  function TermDate(year: int, i: TermIndex): (r: Date)
    ensures r.year == year && r.month == TermTable[i].0
    ensures TermTable[i].1 - 1 <= r.day <= TermTable[i].1
    ensures r.day < TermTable[i].1 <==> year % 4 == 0 && i >= 2
  {
    var (month, day) := TermTable[i];
    Date(year, month, if year % 4 == 0 && i >= 2 then day - 1 else day)
  }

  /** Every term date is a valid calendar date: table days are at least 4,
      so the leap correction never leaves the month. */
  lemma TermDateValid(year: int, i: TermIndex)
    requires 1 <= year <= 9999
    ensures ValidDate(TermDate(year, i))
  {
    TermTableFacts();
  }

  /** The loop test of the term scan: the date is on or after term `i`, and
      either `i` is the last term or the date is before term `i + 1`. */
  predicate Qualifies(d: Date, i: TermIndex)
  {
    !Before(d, TermDate(d.year, i)) && (i == 23 || Before(d, TermDate(d.year, i + 1)))
  }

  /** The scan over terms `i..23`: the first index that qualifies, or 0 when
      none does. */
  function ScanTerms(d: Date, i: nat): (r: TermIndex)
    requires i <= 24
    decreases 24 - i
    ensures (exists j :: i <= j < 24 && Qualifies(d, j)) ==>
              i <= r && Qualifies(d, r) && forall j :: i <= j < r ==> !Qualifies(d, j)
    ensures (forall j :: i <= j < 24 ==> !Qualifies(d, j)) ==> r == 0
  {
    if i == 24 then 0
    else if Qualifies(d, i) then i
    else ScanTerms(d, i + 1)
  }

  /** The term a date falls in: the first term whose interval holds the
      date, or 0 when none does. `CurrentTermCases` splits this by date. */
  function CurrentTerm(d: Date): (r: TermIndex)
    ensures r == 0 || Qualifies(d, r)
    ensures forall j :: 0 <= j < r ==> !Qualifies(d, j)
    ensures (exists j :: 0 <= j < 24 && Qualifies(d, j)) ==> Qualifies(d, r)
  {
    ScanTerms(d, 0)
  }

  /** The ordering of the (leap-corrected) table within one year: terms
      0..21 run from early February to late December, terms 22 and 23 lie
      in January before term 0. */
  lemma TermOrder(y: int)
    ensures forall j: TermIndex :: j <= 21 ==> TermDate(y, j).month >= 2
    ensures forall j: TermIndex :: j <= 21 ==> !Before(TermDate(y, j), TermDate(y, 0))
    ensures forall j: TermIndex :: j <= 21 ==> !Before(TermDate(y, 21), TermDate(y, j))
    ensures TermDate(y, 22).month == 1 && TermDate(y, 23).month == 1
    ensures Before(TermDate(y, 22), TermDate(y, 23))
  {
    TermTableFacts();
  }

  /** Where each date lands: the scan never wraps into the previous year, so
      January 1 up to the day before term 22 falls through to term 0,
      everything from term 21 on (late December) reports term 23, and term 21
      itself is never reported. Together the cases cover every date. */
  lemma CurrentTermCases(d: Date)
    requires ValidDate(d)
    ensures CurrentTerm(d) != 21
    ensures Before(d, TermDate(d.year, 22)) ==> CurrentTerm(d) == 0
    ensures !Before(d, TermDate(d.year, 22)) && Before(d, TermDate(d.year, 23)) ==> CurrentTerm(d) == 22
    ensures !Before(d, TermDate(d.year, 23)) && Before(d, TermDate(d.year, 0)) ==> CurrentTerm(d) == 23
    ensures !Before(d, TermDate(d.year, 21)) ==> CurrentTerm(d) == 23
    ensures !Before(d, TermDate(d.year, 0)) && Before(d, TermDate(d.year, 21)) ==>
              CurrentTerm(d) <= 20
              && !Before(d, TermDate(d.year, CurrentTerm(d)))
              && Before(d, TermDate(d.year, CurrentTerm(d) + 1))
  {
    var y := d.year;
    TermOrder(y);
    assert !Qualifies(d, 21);
    if Before(d, TermDate(y, 22)) {
      NoTermQualifies(d);
    } else if Before(d, TermDate(y, 23)) {
      assert Qualifies(d, 22);
    } else if Before(d, TermDate(y, 0)) || !Before(d, TermDate(y, 21)) {
      LastTermOnly(d);
    } else {
      var i := IntervalBelow(d, 21);
      assert Qualifies(d, i);
    }
  }

  lemma NoTermQualifies(d: Date)
    requires Before(d, TermDate(d.year, 22))
    ensures forall j: TermIndex :: !Qualifies(d, j)
  {
    TermOrder(d.year);
  }

  lemma LastTermOnly(d: Date)
    requires !Before(d, TermDate(d.year, 23))
    requires Before(d, TermDate(d.year, 0)) || !Before(d, TermDate(d.year, 21))
    ensures Qualifies(d, 23)
    ensures forall j: TermIndex :: j < 23 ==> !Qualifies(d, j)
  {
    TermOrder(d.year);
  }

  /** Between term 0 and term `k` (k <= 21) some term `i < k` starts on or
      before the date while term `i + 1` starts after it. */
  lemma {:induction false} IntervalBelow(d: Date, k: int) returns (i: int)
    requires 1 <= k <= 21
    requires !Before(d, TermDate(d.year, 0)) && Before(d, TermDate(d.year, k))
    ensures 0 <= i < k
    ensures !Before(d, TermDate(d.year, i)) && Before(d, TermDate(d.year, i + 1))
    decreases k
  {
    if !Before(d, TermDate(d.year, k - 1)) {
      i := k - 1;
    } else {
      i := IntervalBelow(d, k - 1);
    }
  }

  /** January 1-5 (January 1-4 in years divisible by 4) precede term 22 and
      so fall through to term 0, like early February. */
  lemma EarlyJanuaryIsTermZero(d: Date)
    requires ValidDate(d) && d.month == 1
    requires d.day < (if d.year % 4 == 0 then 5 else 6)
    ensures CurrentTerm(d) == 0
  {
    CurrentTermCases(d);
  }

  /** December 22-31 lie after term 21 and are reported as the last term,
      23. */
  lemma LateDecemberIsTermTwentyThree(d: Date)
    requires ValidDate(d) && d.month == 12 && d.day >= 22
    ensures CurrentTerm(d) == 23
  {
    CurrentTermCases(d);
  }
}
