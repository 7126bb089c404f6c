/**
 * Month arithmetic of the calendar's main view: the requested (year, month)
 * is normalised by a single roll-over step, and the view links to the
 * previous and the next month.
 *
 * Months are counted on one line by MonthIndex (twelve per year, January of
 * year 0 at index 0); that count is the reference against which Prev, Next
 * and Normalize are stated.
 */
module MonthNavigation {

  datatype YearMonth = YearMonth(year: int, month: int)

  /** What the main view links to: the month shown and its two neighbours. */
  datatype Navigation = Navigation(shown: YearMonth, prev: YearMonth, next: YearMonth)

  predicate ValidMonth(month: int) {
    1 <= month <= 12
  }

  /** Position of a month on the line of all months. */
  function MonthIndex(ym: YearMonth): int {
    ym.year * 12 + ym.month - 1
  }

  /** The month at a position on that line (Euclidean division, so also for negative years). */
  function FromIndex(k: int): (ym: YearMonth)
    ensures ValidMonth(ym.month)
    ensures MonthIndex(ym) == k
  {
    YearMonth(k / 12, k % 12 + 1)
  }

  lemma FromIndexOfMonthIndex(ym: YearMonth)
    requires ValidMonth(ym.month)
    ensures FromIndex(MonthIndex(ym)) == ym
  {
    var k := MonthIndex(ym);
    assert k == ym.year * 12 + (ym.month - 1) && 0 <= ym.month - 1 < 12;
    assert k / 12 == ym.year;
  }

  /**
   * The roll-over applied to the requested month before the view is built:
   * one step only, whatever the distance from the range 1..12.
   */
  function Normalize(year: int, month: int): (r: YearMonth)
    ensures ValidMonth(r.month)
    ensures ValidMonth(month) <==> r == YearMonth(year, month)
    ensures month > 12 ==> r == YearMonth(year + 1, 1)
    ensures month < 1 ==> r == YearMonth(year - 1, 12)
  {
    if month > 12 then YearMonth(year + 1, 1)
    else if month < 1 then YearMonth(year - 1, 12)
    else YearMonth(year, month)
  }

  /** The month before (year, month), as the "previous" link computes it. */
  function Prev(year: int, month: int): (r: YearMonth)
    ensures ValidMonth(month) ==> ValidMonth(r.month)
    ensures ValidMonth(month) ==> MonthIndex(r) == MonthIndex(YearMonth(year, month)) - 1
  {
    if month - 1 < 1 then YearMonth(year - 1, 12) else YearMonth(year, month - 1)
  }

  /** The month after (year, month), as the "next" link computes it. */
  function Next(year: int, month: int): (r: YearMonth)
    ensures ValidMonth(month) ==> ValidMonth(r.month)
    ensures ValidMonth(month) ==> MonthIndex(r) == MonthIndex(YearMonth(year, month)) + 1
  {
    if month + 1 > 12 then YearMonth(year + 1, 1) else YearMonth(year, month + 1)
  }

  /** Everything the main view computes from the requested year and month. */
  function Navigate(year: int, month: int): (r: Navigation)
    ensures r.shown == Normalize(year, month)
    ensures ValidMonth(r.shown.month) && ValidMonth(r.prev.month) && ValidMonth(r.next.month)
    ensures MonthIndex(r.prev) + 1 == MonthIndex(r.shown) == MonthIndex(r.next) - 1
  {
    var shown := Normalize(year, month);
    Navigation(shown, Prev(shown.year, shown.month), Next(shown.year, shown.month))
  }

  /** Next steps one month forward on the line of months. */
  lemma NextIsSuccessor(ym: YearMonth)
    requires ValidMonth(ym.month)
    ensures Next(ym.year, ym.month) == FromIndex(MonthIndex(ym) + 1)
  {
    var r := Next(ym.year, ym.month);
    FromIndexOfMonthIndex(r);
  }

  /** Prev steps one month back on the line of months. */
  lemma PrevIsPredecessor(ym: YearMonth)
    requires ValidMonth(ym.month)
    ensures Prev(ym.year, ym.month) == FromIndex(MonthIndex(ym) - 1)
  {
    var r := Prev(ym.year, ym.month);
    FromIndexOfMonthIndex(r);
  }

  lemma NextOfPrev(ym: YearMonth)
    requires ValidMonth(ym.month)
    ensures var p := Prev(ym.year, ym.month); Next(p.year, p.month) == ym
  {
  }

  lemma PrevOfNext(ym: YearMonth)
    requires ValidMonth(ym.month)
    ensures var n := Next(ym.year, ym.month); Prev(n.year, n.month) == ym
  {
  }

  /** Only January moves "previous" into another year, and only December moves "next". */
  lemma YearChangesOnlyAtEnds(ym: YearMonth)
    requires ValidMonth(ym.month)
    ensures Prev(ym.year, ym.month).year != ym.year <==> ym.month == 1
    ensures Next(ym.year, ym.month).year != ym.year <==> ym.month == 12
    ensures ym.month == 1 ==> Prev(ym.year, ym.month) == YearMonth(ym.year - 1, 12)
    ensures ym.month == 12 ==> Next(ym.year, ym.month) == YearMonth(ym.year + 1, 1)
  {
  }

  /**
   * Reference roll-over by whole years: the month line position of
   * (year, month) read back as a valid month.
   */
  function ModularNormalize(year: int, month: int): (r: YearMonth)
    ensures ValidMonth(r.month)
    ensures MonthIndex(r) == year * 12 + month - 1
  {
    FromIndex(year * 12 + month - 1)
  }

  /**
   * The view's own links only ask for months 1 to 12; the single roll-over
   * step agrees with the reference exactly for requests at most one month
   * out of range (months 0 to 13), as a hand-written address may give.
   */
  lemma NormalizeAgreesNearRange(year: int, month: int)
    ensures Normalize(year, month) == ModularNormalize(year, month) <==> 0 <= month <= 13
  {
    var r := Normalize(year, month);
    if 0 <= month <= 13 {
      FromIndexOfMonthIndex(r);
    } else {
      assert MonthIndex(r) != MonthIndex(ModularNormalize(year, month));
    }
  }

  /** An instance further out: month 25 becomes January of the next year, not of the one after. */
  lemma NormalizeIsSingleStep(year: int)
    ensures Normalize(year, 25) == YearMonth(year + 1, 1)
    ensures ModularNormalize(year, 25) == YearMonth(year + 2, 1)
  {
    NormalizeAgreesNearRange(year, 25);
    FromIndexOfMonthIndex(YearMonth(year + 2, 1));
  }

  /** Following a link of the view shows that month unchanged. */
  lemma LinksNeedNoNormalization(year: int, month: int)
    ensures var nav := Navigate(year, month);
      && Normalize(nav.prev.year, nav.prev.month) == nav.prev
      && Normalize(nav.next.year, nav.next.month) == nav.next
      && Navigate(nav.next.year, nav.next.month).prev == nav.shown
      && Navigate(nav.prev.year, nav.prev.month).next == nav.shown
  {
  }
}
