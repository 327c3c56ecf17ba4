/**
  The cost table's pure rules: the three year windows it builds with
  `addYears`, the per-intervention rows of yearly costs, and the footer's
  per-year total.
 */
module CostTable {
  import opened Dates
  import opened Interventions
  import opened CostCalculations

  /** Year `k` of the table starts `addYears(startDate, k)`. */
  function YearStart(startDate: CalendarDate, k: nat): (r: CalendarDate)
    // `k` whole years on, in the start's calendar month
    ensures MonthIndex(r) == MonthIndex(startDate) + 12 * k && r.month == startDate.month
    // the start's day, unless a 29 February start lands in a common year
    ensures r.day == startDate.day || (startDate.day == 29 && r.day == 28 && !IsLeapYear(r.year))
  {
    AddYears(startDate, k)
  }

  /** ... and ends, inclusively, `addYears(yearStart, 1)`. */
  function YearEnd(startDate: CalendarDate, k: nat): (r: CalendarDate)
    // one whole year after the window's start, in the same calendar month
    ensures MonthIndex(r) == MonthIndex(YearStart(startDate, k)) + 12 && r.month == startDate.month
    // never on a later day of the month than the roadmap start
    ensures r.day <= startDate.day
  {
    AddYears(YearStart(startDate, k), 1)
  }

  /** Each table window is ordered, and later years start later. */
  lemma YearWindowsOrdered(startDate: CalendarDate, k: nat)
    ensures Before(YearStart(startDate, k), YearEnd(startDate, k))
    ensures OnOrBefore(startDate, YearStart(startDate, k))
    ensures Before(YearStart(startDate, k), YearStart(startDate, k + 1))
  {
    AddMonthsAdvances(YearStart(startDate, k), 12);
    AddMonthsAdvances(startDate, 12 * k);
    MonthIndexOrder(YearStart(startDate, k), YearStart(startDate, k + 1));
  }

  /**
    The rows' `yearCosts`: the intervention's breakdown for each of the three
    table windows.
   */
  function RowCosts(iv: Intervention, startDate: CalendarDate): (r: seq<YearlyCosts>)
    ensures |r| == 3
    ensures forall k: nat :: k < 3 ==>
      OnOrBefore(YearStart(startDate, k), YearEnd(startDate, k))
      && r[k] == CalculateYearlyCosts(iv, YearStart(startDate, k), YearEnd(startDate, k))
  {
    YearWindowsOrdered(startDate, 0);
    YearWindowsOrdered(startDate, 1);
    YearWindowsOrdered(startDate, 2);
    seq(3, k requires 0 <= k < 3 => CalculateYearlyCosts(iv, YearStart(startDate, k), YearEnd(startDate, k)))
  }

  /**
    The footer cell for year `k`: `yearTotal += costs.total` over the
    interventions, in order.
   */
  method FooterYearTotal(ivs: seq<Intervention>, startDate: CalendarDate, k: nat) returns (yearTotal: real)
    ensures OnOrBefore(YearStart(startDate, k), YearEnd(startDate, k))
    ensures yearTotal == CalculateTotalYearlyCosts(ivs, YearStart(startDate, k), YearEnd(startDate, k))
    ensures (forall i :: 0 <= i < |ivs| ==> NonNegative(ivs[i])) ==> yearTotal >= 0.0
  {
    var yearStart := YearStart(startDate, k);
    var yearEnd := AddYears(yearStart, 1);
    YearWindowsOrdered(startDate, k);
    yearTotal := 0.0;
    var i := 0;
    while i < |ivs|
      invariant 0 <= i <= |ivs|
      invariant yearTotal == CalculateTotalYearlyCosts(ivs[..i], yearStart, yearEnd)
    {
      var costs := CalculateYearlyCosts(ivs[i], yearStart, yearEnd);
      assert CalculateTotalYearlyCosts(ivs[..i + 1], yearStart, yearEnd)
          == CalculateTotalYearlyCosts(ivs[..i], yearStart, yearEnd) + costs.total by {
        assert ivs[..i + 1][..i] == ivs[..i];
        assert ivs[..i + 1][i] == ivs[i];
      }
      yearTotal := yearTotal + costs.total;
      i := i + 1;
    }
    assert ivs[..|ivs|] == ivs;
  }

  /**
    Year `k`'s window ends on the day year `k + 1` starts, for the first two
    years, whatever the start date (a 29 February start clamps to 28 February
    in both, since none of the next three years is a leap year).
   */
  lemma YearEndIsNextYearStart(startDate: CalendarDate, k: nat)
    requires k < 2
    ensures YearEnd(startDate, k) == YearStart(startDate, k + 1)
  {
    if startDate.month == 2 && startDate.day == 29 {
      assert IsLeapYear(startDate.year);
      assert !IsLeapYear(startDate.year + 1) && !IsLeapYear(startDate.year + 2);
    }
    AddYearsTwice(startDate, k);
  }

  // ---------------------------------------------------------------------------
  // The shared boundary day
  // ---------------------------------------------------------------------------

  /**
    As written, neighbouring windows overlap on their shared boundary day: a
    one-off charge dated exactly on year `k + 2`'s first day (counting from 1)
    is charged in both year `k + 1` and year `k + 2`, so the table shows it
    twice. This holds for the implementation cost and the one-time fee alike.
   */
  lemma BoundaryDayChargedTwice(iv: Intervention, startDate: CalendarDate, k: nat)
    requires k < 2
    ensures var row := RowCosts(iv, startDate);
      iv.timeline.implementationStartDate == YearStart(startDate, k + 1) ==>
        && row[k].implementationCost == iv.costs.implementationCost
        && row[k + 1].implementationCost == iv.costs.implementationCost
        && row[0].implementationCost + row[1].implementationCost + row[2].implementationCost
           == 2.0 * iv.costs.implementationCost
    ensures var row := RowCosts(iv, startDate);
      iv.timeline.ongoingStartDate == YearStart(startDate, k + 1) ==>
        && row[k].oneTimeFixedFee == iv.costs.oneTimeFixedFee
        && row[k + 1].oneTimeFixedFee == iv.costs.oneTimeFixedFee
        && row[0].oneTimeFixedFee + row[1].oneTimeFixedFee + row[2].oneTimeFixedFee
           == 2.0 * iv.costs.oneTimeFixedFee
  {
    var x := YearStart(startDate, k + 1);
    BoundaryDayInTwoWindows(startDate, k);
    var row := RowCosts(iv, startDate);
    assert row[0] == CalculateYearlyCosts(iv, YearStart(startDate, 0), YearEnd(startDate, 0));
    assert row[1] == CalculateYearlyCosts(iv, YearStart(startDate, 1), YearEnd(startDate, 1));
    assert row[2] == CalculateYearlyCosts(iv, YearStart(startDate, 2), YearEnd(startDate, 2));
  }

  /** Year `k + 1`'s first day lies in year `k`'s window and its own, and in no other. */
  lemma BoundaryDayInTwoWindows(startDate: CalendarDate, k: nat)
    requires k < 2
    ensures var x := YearStart(startDate, k + 1);
      && IsWithinInterval(x, YearStart(startDate, 0), YearEnd(startDate, 0)) == (k == 0)
      && IsWithinInterval(x, YearStart(startDate, 1), YearEnd(startDate, 1))
      && IsWithinInterval(x, YearStart(startDate, 2), YearEnd(startDate, 2)) == (k == 1)
  {
    YearEndIsNextYearStart(startDate, 0);
    YearEndIsNextYearStart(startDate, 1);
    YearWindowsOrdered(startDate, 0);
    YearWindowsOrdered(startDate, 1);
    YearWindowsOrdered(startDate, 2);
  }

  /**
    The evidently intended year end: the day before `addYears(yearStart, 1)`,
    as the column headings display it.
   */
  function IntendedYearEnd(startDate: CalendarDate, k: nat): (r: CalendarDate)
    ensures OnOrBefore(YearStart(startDate, k), r)
    ensures Before(r, YearEnd(startDate, k))
  {
    YearWindowsOrdered(startDate, k);
    PrevDay(YearEnd(startDate, k))
  }

  /**
    As written, a window spans thirteen calendar months of PEPM: from a start
    day every month has (1 to 28), an ongoing window that runs at least to the
    window's closing day is billed 13 months in it, since the loop's date
    reaches the closing day itself.
   */
  lemma WindowBillsThirteenMonths(startDate: CalendarDate, k: nat, ongoingEnd: CalendarDate)
    requires startDate.day <= 28
    requires OnOrBefore(YearEnd(startDate, k), ongoingEnd)
    ensures BillableMonths(YearStart(startDate, k), YearEnd(startDate, k), ongoingEnd) == 13
  {
    var s, e := YearStart(startDate, k), YearEnd(startDate, k);
    YearWindowsOrdered(startDate, k);
    MonthIndexOrder(e, ongoingEnd);
    MonthsForSmallDay(s, e, ongoingEnd);
  }

  /**
    Over the intended window, which closes the day before, the same ongoing
    window is billed the twelve months of one year.
   */
  lemma IntendedWindowBillsTwelveMonths(startDate: CalendarDate, k: nat, ongoingEnd: CalendarDate)
    requires startDate.day <= 28
    requires OnOrBefore(IntendedYearEnd(startDate, k), ongoingEnd)
    ensures BillableMonths(YearStart(startDate, k), IntendedYearEnd(startDate, k), ongoingEnd) == 12
  {
    var s, e, i := YearStart(startDate, k), YearEnd(startDate, k), IntendedYearEnd(startDate, k);
    YearWindowsOrdered(startDate, k);
    MonthIndexOrder(i, ongoingEnd);
    assert s.day == startDate.day;
    if e.day > 1 {
      assert MonthIndex(i) == MonthIndex(s) + 12;
    } else {
      assert MonthIndex(i) == MonthIndex(s) + 11;
    }
    MonthsForSmallDay(s, i, ongoingEnd);
  }

  /**
    Ending the window a day earlier does not remove the thirteenth month when a
    step clamps the loop's day to the closing day or below. From 31 March 2025
    the displayed window closes on 30 March 2026, yet the loop's date is
    clamped to 28 February and stays on the 28th, so 28 March 2026 is still
    counted: 13 months, as over the window as written.
   */
  lemma IntendedWindowFromMonthEndBillsThirteen()
    ensures IntendedYearEnd(Date(2025, 3, 31), 0) == Date(2026, 3, 30)
    ensures BillableMonths(Date(2025, 3, 31), Date(2026, 3, 30), Date(2030, 1, 1)) == 13
  {
    MonthEndYearEnd();
    MonthEndMonths();
  }

  lemma MonthEndYearEnd()
    ensures IntendedYearEnd(Date(2025, 3, 31), 0) == Date(2026, 3, 30)
  {
    assert YearEnd(Date(2025, 3, 31), 0) == Date(2026, 3, 31);
  }

  lemma MonthEndMonths()
    ensures BillableMonths(Date(2025, 3, 31), Date(2026, 3, 30), Date(2030, 1, 1)) == 13
  {
    MonthsFromThirtyFirstOfMarch(Date(2025, 3, 31), Date(2026, 3, 30), Date(2030, 1, 1), 11);
  }

  /**
    From 31 March of a year followed by a common year, to 30 March of that next
    year: step `k` = 11 lands in February and clamps the day to 28, so the date
    reached in the closing month still passes and 13 months are counted.
   */
  lemma MonthsFromThirtyFirstOfMarch(d: CalendarDate, e: CalendarDate, ongoingEnd: CalendarDate, k: nat)
    requires d.month == 3 && d.day == 31 && !IsLeapYear(d.year + 1)
    requires e == Date(d.year + 1, 3, 30) && k == 11
    requires OnOrBefore(e, ongoingEnd)
    ensures BillableMonths(d, e, ongoingEnd) == 13
  {
    var feb := Chain(d, k);
    assert feb.year * 12 + feb.month == (d.year + 1) * 12 + 2;
    assert feb.year == d.year + 1 && feb.month == 2;
    ClampedLastMonth(d, k, e, ongoingEnd);
  }

  /**
    When the loop's date after `k` steps sits in a month no longer than the
    closing day, step `k + 1` lands in the closing month on a day that still
    passes: every month up to the bound's is counted.
   */
  lemma ClampedLastMonth(d: CalendarDate, k: nat, e: CalendarDate, ongoingEnd: CalendarDate)
    requires OnOrBefore(e, ongoingEnd) && OnOrBefore(d, e)
    requires MonthIndex(e) == MonthIndex(d) + k + 1
    requires DaysInMonth(Chain(d, k).year, Chain(d, k).month) <= e.day
    ensures BillableMonths(d, e, ongoingEnd) == k + 2
  {
    MonthIndexOrder(e, ongoingEnd);
    ChainStep(d, k);
    var last := Chain(d, k + 1);
    assert last.year * 12 + last.month == e.year * 12 + e.month;
    assert last.year == e.year && last.month == e.month;
    MonthsFromCalendarGap(d, e, ongoingEnd);
  }

  /**
    When the February a start on the 29th crosses is a leap one, no step clamps
    the day and ending the window a day earlier does remove the thirteenth
    month: from 29 January 2028 the displayed window closes on 28 January 2029
    and the loop counts 29 January to 29 December 2028, 12 months.
   */
  lemma IntendedWindowThroughLeapFebruaryBillsTwelve()
    ensures IntendedYearEnd(Date(2028, 1, 29), 0) == Date(2029, 1, 28)
    ensures BillableMonths(Date(2028, 1, 29), Date(2029, 1, 28), Date(2030, 1, 1)) == 12
  {
    LeapJanuaryYearEnd();
    LeapJanuaryMonths();
  }

  lemma LeapJanuaryYearEnd()
    ensures IntendedYearEnd(Date(2028, 1, 29), 0) == Date(2029, 1, 28)
  {
    assert YearEnd(Date(2028, 1, 29), 0) == Date(2029, 1, 29);
  }

  lemma LeapJanuaryMonths()
    ensures BillableMonths(Date(2028, 1, 29), Date(2029, 1, 28), Date(2030, 1, 1)) == 12
  {
    MonthsFromLeapJanuary(Date(2028, 1, 29), Date(2029, 1, 28), Date(2030, 1, 1), 12);
  }

  /**
    From 29 January of a leap year to 28 January of the next: every month on
    the way has a 29th, so step `k` = 12 is still on the 29th, past the
    closing day, and 12 months are counted.
   */
  lemma MonthsFromLeapJanuary(d: CalendarDate, e: CalendarDate, ongoingEnd: CalendarDate, k: nat)
    requires d.month == 1 && d.day == 29 && IsLeapYear(d.year)
    requires e == Date(d.year + 1, 1, 28) && k == 12
    requires OnOrBefore(e, ongoingEnd)
    ensures BillableMonths(d, e, ongoingEnd) == 12
  {
    MonthIndexOrder(e, ongoingEnd);
    ChainKeepsTwentyNinth(d, k);
    MonthsFromCalendarGap(d, e, ongoingEnd);
  }

  /** From 29 January of a leap year, the loop stays on the 29th for a whole year. */
  lemma {:induction false} ChainKeepsTwentyNinth(d: CalendarDate, k: nat)
    requires d.month == 1 && d.day == 29 && IsLeapYear(d.year) && k <= 12
    ensures Chain(d, k).day == 29
    decreases k
  {
    if k > 0 {
      ChainKeepsTwentyNinth(d, k - 1);
      ChainStep(d, k - 1);
      var c := Chain(d, k - 1);
      assert c.year * 12 + c.month == d.year * 12 + k;
      assert c.year == d.year && c.month == k;
      var n := AddMonths(c, 1);
      assert n.year * 12 + n.month == d.year * 12 + k + 1;
      if k == 12 {
        assert n.year == d.year + 1 && n.month == 1;
      } else {
        assert n.year == d.year && n.month == k + 1;
      }
      assert DaysInMonth(n.year, n.month) >= 29;
    }
  }

  /**
    In the table's row: an ongoing window that covers year `k`'s whole window
    is charged 13 months of PEPM for that year.
   */
  lemma RowChargesThirteenMonths(iv: Intervention, startDate: CalendarDate, k: nat)
    requires k < 3 && startDate.day <= 28
    requires HasEmployees(iv)
    requires OnOrBefore(iv.timeline.ongoingStartDate, YearStart(startDate, k))
    requires OnOrBefore(YearEnd(startDate, k), iv.timeline.ongoingEndDate)
    ensures RowCosts(iv, startDate)[k].pepmCost
         == PepmAmount(iv.costs.ongoingCostPEPM, iv.eligibleEmployees.value, 13)
  {
    WindowBillsThirteenMonths(startDate, k, iv.timeline.ongoingEndDate);
  }

  /** In the intended row the same intervention is charged 12 months for that year. */
  lemma IntendedRowChargesTwelveMonths(iv: Intervention, startDate: CalendarDate, k: nat)
    requires k < 3 && startDate.day <= 28
    requires HasEmployees(iv)
    requires OnOrBefore(iv.timeline.ongoingStartDate, YearStart(startDate, k))
    requires OnOrBefore(IntendedYearEnd(startDate, k), iv.timeline.ongoingEndDate)
    ensures IntendedRowCosts(iv, startDate)[k].pepmCost
         == PepmAmount(iv.costs.ongoingCostPEPM, iv.eligibleEmployees.value, 12)
  {
    IntendedWindowBillsTwelveMonths(startDate, k, iv.timeline.ongoingEndDate);
  }

  /** The intended rows: each year's breakdown over the intended, non-overlapping window. */
  function IntendedRowCosts(iv: Intervention, startDate: CalendarDate): (r: seq<YearlyCosts>)
    ensures |r| == 3
    ensures forall k: nat :: k < 3 ==> r[k] == CalculateYearlyCosts(iv, YearStart(startDate, k), IntendedYearEnd(startDate, k))
  {
    seq(3, k requires 0 <= k < 3 => CalculateYearlyCosts(iv, YearStart(startDate, k), IntendedYearEnd(startDate, k)))
  }

  /** How many of the three intended windows hold `d`. */
  function IntendedWindowsHolding(startDate: CalendarDate, d: Date): nat {
    (if IsWithinInterval(d, YearStart(startDate, 0), IntendedYearEnd(startDate, 0)) then 1 else 0)
    + (if IsWithinInterval(d, YearStart(startDate, 1), IntendedYearEnd(startDate, 1)) then 1 else 0)
    + (if IsWithinInterval(d, YearStart(startDate, 2), IntendedYearEnd(startDate, 2)) then 1 else 0)
  }

  /**
    The intended windows partition the roadmap: a day inside it lies in exactly
    one of them, a day outside it in none.
   */
  lemma IntendedWindowsPartition(startDate: CalendarDate, d: CalendarDate)
    ensures IntendedWindowsHolding(startDate, d)
         == (if IsWithinInterval(d, YearStart(startDate, 0), IntendedYearEnd(startDate, 2)) then 1 else 0)
  {
    YearEndIsNextYearStart(startDate, 0);
    YearEndIsNextYearStart(startDate, 1);
    YearWindowsOrdered(startDate, 0);
    YearWindowsOrdered(startDate, 1);
    YearWindowsOrdered(startDate, 2);
    var e0, e1 := IntendedYearEnd(startDate, 0), IntendedYearEnd(startDate, 1);
    assert Before(d, YearStart(startDate, 1)) ==> OnOrBefore(d, e0);
    assert Before(d, YearStart(startDate, 2)) ==> OnOrBefore(d, e1);
  }

  /**
    With the intended windows, each one-off charge lands in exactly one year of
    the roadmap, or in none when its anchor date lies outside the roadmap.
   */
  lemma IntendedOneOffChargedOnce(iv: Intervention, startDate: CalendarDate)
    ensures var row := IntendedRowCosts(iv, startDate);
      var roadmapEnd := IntendedYearEnd(startDate, 2);
      && row[0].implementationCost + row[1].implementationCost + row[2].implementationCost
         == (if IsWithinInterval(iv.timeline.implementationStartDate, startDate, roadmapEnd)
             then iv.costs.implementationCost else 0.0)
      && row[0].oneTimeFixedFee + row[1].oneTimeFixedFee + row[2].oneTimeFixedFee
         == (if IsWithinInterval(iv.timeline.ongoingStartDate, startDate, roadmapEnd)
             then iv.costs.oneTimeFixedFee else 0.0)
  {
    assert YearStart(startDate, 0) == startDate;
    IntendedWindowsPartition(startDate, iv.timeline.implementationStartDate);
    IntendedWindowsPartition(startDate, iv.timeline.ongoingStartDate);
  }

  // ---------------------------------------------------------------------------
  // The annual fee across the table
  // ---------------------------------------------------------------------------

  /**
    An ongoing window that starts by the roadmap start and is still running
    after year 3 starts is charged the annual fee in each of the three years:
    once per year touched, not once in total.
   */
  lemma FixedFeeEveryYear(iv: Intervention, startDate: CalendarDate)
    requires OnOrBefore(iv.timeline.ongoingStartDate, startDate)
    requires Before(YearStart(startDate, 2), iv.timeline.ongoingEndDate)
    ensures var row := RowCosts(iv, startDate);
      && row[0].fixedAnnualCost == iv.costs.ongoingCostFixed
      && row[1].fixedAnnualCost == iv.costs.ongoingCostFixed
      && row[2].fixedAnnualCost == iv.costs.ongoingCostFixed
  {
    YearWindowsOrdered(startDate, 0);
    YearWindowsOrdered(startDate, 1);
    YearWindowsOrdered(startDate, 2);
  }
}
