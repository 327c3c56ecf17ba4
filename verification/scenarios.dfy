/**
  The roadmap page's first demonstration intervention ("Mental Health
  Platform"), costed over the cost table's three windows from a 13 March 2025
  start.
 */
module Scenarios {
  import opened Dates
  import opened Interventions
  import opened CostCalculations
  import opened CostTable

  const RoadmapStart: CalendarDate := Date(2025, 3, 13)

  const MentalHealthPlatform: Intervention := Intervention(
    1, "Mental Health Platform", "24/7 access to mental health professionals",
    InterventionTimeline(Date(2025, 8, 1), Date(2025, 10, 31), Date(2025, 9, 1), Date(2027, 3, 12)),
    CostBreakdown(120000.0, 2.45, 10000.0, 1500.0),
    Some(500.0))

  /**
    Ongoing from 1 September 2025, the PEPM loop counts seven month starts,
    September to March, before the window end of 13 March 2026.
   */
  lemma MentalHealthPlatformMonthsYear1()
    ensures BillableMonths(Date(2025, 9, 1), Date(2026, 3, 13), Date(2027, 3, 12)) == 7
  {
    MonthsForSmallDay(Date(2025, 9, 1), Date(2026, 3, 13), Date(2027, 3, 12));
  }

  /** Ending the window a day earlier, on 12 March 2026, still counts seven. */
  lemma MentalHealthPlatformMonthsYear1Heading()
    ensures BillableMonths(Date(2025, 9, 1), Date(2026, 3, 12), Date(2027, 3, 12)) == 7
  {
    MonthsForSmallDay(Date(2025, 9, 1), Date(2026, 3, 12), Date(2027, 3, 12));
  }

  /** From 13 March 2026 it counts twelve, 13 March to 13 February, before the ongoing end of 12 March 2027. */
  lemma MentalHealthPlatformMonthsYear2()
    ensures BillableMonths(Date(2026, 3, 13), Date(2027, 3, 13), Date(2027, 3, 12)) == 12
  {
    MonthsForSmallDay(Date(2026, 3, 13), Date(2027, 3, 13), Date(2027, 3, 12));
  }

  /** Ending the window on 12 March 2027, the ongoing end itself, still counts twelve. */
  lemma MentalHealthPlatformMonthsYear2Heading()
    ensures BillableMonths(Date(2026, 3, 13), Date(2027, 3, 12), Date(2027, 3, 12)) == 12
  {
    MonthsForSmallDay(Date(2026, 3, 13), Date(2027, 3, 12), Date(2027, 3, 12));
  }

  /**
    Year 1, 13 March 2025 to 13 March 2026, carries the implementation cost, the
    one-time fee, the annual fee and seven months of PEPM
    (2.45 x 500 x 7 = 8,575): 140,075 in all.
   */
  lemma MentalHealthPlatformYear1()
    ensures CalculateYearlyCosts(MentalHealthPlatform, Date(2025, 3, 13), Date(2026, 3, 13))
         == YearlyCosts(120000.0, 1500.0, 8575.0, 10000.0, 140075.0)
  {
    MentalHealthPlatformMonthsYear1();
    assert Latest(Date(2025, 9, 1), Date(2025, 3, 13)) == Date(2025, 9, 1);
  }

  /** Year 2 carries the annual fee and twelve months of PEPM (14,700). */
  lemma MentalHealthPlatformYear2()
    ensures CalculateYearlyCosts(MentalHealthPlatform, Date(2026, 3, 13), Date(2027, 3, 13))
         == YearlyCosts(0.0, 0.0, 14700.0, 10000.0, 24700.0)
  {
    MentalHealthPlatformMonthsYear2();
    assert Latest(Date(2025, 9, 1), Date(2026, 3, 13)) == Date(2026, 3, 13);
  }

  /**
    Year 3 carries nothing: the ongoing window ends on 12 March 2027, the day
    before it starts, so neither the annual fee nor any PEPM month applies.
   */
  lemma MentalHealthPlatformYear3()
    ensures CalculateYearlyCosts(MentalHealthPlatform, Date(2027, 3, 13), Date(2028, 3, 13))
         == YearlyCosts(0.0, 0.0, 0.0, 0.0, 0.0)
  {
    assert Latest(Date(2025, 9, 1), Date(2027, 3, 13)) == Date(2027, 3, 13);
  }

  /** The cost table's three windows from 13 March 2025 are the three above. */
  lemma MentalHealthPlatformRow()
    ensures var row := RowCosts(MentalHealthPlatform, RoadmapStart);
      && row[0] == YearlyCosts(120000.0, 1500.0, 8575.0, 10000.0, 140075.0)
      && row[1] == YearlyCosts(0.0, 0.0, 14700.0, 10000.0, 24700.0)
      && row[2] == YearlyCosts(0.0, 0.0, 0.0, 0.0, 0.0)
  {
    assert YearStart(RoadmapStart, 0) == Date(2025, 3, 13);
    assert YearStart(RoadmapStart, 1) == Date(2026, 3, 13);
    assert YearStart(RoadmapStart, 2) == Date(2027, 3, 13);
    assert YearEnd(RoadmapStart, 0) == Date(2026, 3, 13);
    assert YearEnd(RoadmapStart, 1) == Date(2027, 3, 13);
    assert YearEnd(RoadmapStart, 2) == Date(2028, 3, 13);
    MentalHealthPlatformYear1();
    MentalHealthPlatformYear2();
    MentalHealthPlatformYear3();
  }

  /**
    Over the windows the column headings display, which end the day before,
    the record costs the same in each year: none of its dates falls on a
    shared boundary day. Year 1 ends on 12 March 2026 and still counts seven
    months.
   */
  lemma MentalHealthPlatformIntendedYear1()
    ensures CalculateYearlyCosts(MentalHealthPlatform, Date(2025, 3, 13), Date(2026, 3, 12))
         == YearlyCosts(120000.0, 1500.0, 8575.0, 10000.0, 140075.0)
  {
    MentalHealthPlatformMonthsYear1Heading();
    assert Latest(Date(2025, 9, 1), Date(2025, 3, 13)) == Date(2025, 9, 1);
  }

  /** Year 2 ends on 12 March 2027, the ongoing end, and still counts twelve. */
  lemma MentalHealthPlatformIntendedYear2()
    ensures CalculateYearlyCosts(MentalHealthPlatform, Date(2026, 3, 13), Date(2027, 3, 12))
         == YearlyCosts(0.0, 0.0, 14700.0, 10000.0, 24700.0)
  {
    MentalHealthPlatformMonthsYear2Heading();
    assert Latest(Date(2025, 9, 1), Date(2026, 3, 13)) == Date(2026, 3, 13);
  }

  lemma MentalHealthPlatformIntendedYear3()
    ensures CalculateYearlyCosts(MentalHealthPlatform, Date(2027, 3, 13), Date(2028, 3, 12))
         == YearlyCosts(0.0, 0.0, 0.0, 0.0, 0.0)
  {
    assert Latest(Date(2025, 9, 1), Date(2027, 3, 13)) == Date(2027, 3, 13);
  }

  /** The corrected table row for the record holds the same three breakdowns as the row as written. */
  lemma MentalHealthPlatformIntendedRow()
    ensures var row := IntendedRowCosts(MentalHealthPlatform, RoadmapStart);
      && row[0] == YearlyCosts(120000.0, 1500.0, 8575.0, 10000.0, 140075.0)
      && row[1] == YearlyCosts(0.0, 0.0, 14700.0, 10000.0, 24700.0)
      && row[2] == YearlyCosts(0.0, 0.0, 0.0, 0.0, 0.0)
  {
    assert YearStart(RoadmapStart, 0) == Date(2025, 3, 13);
    assert YearStart(RoadmapStart, 1) == Date(2026, 3, 13);
    assert YearStart(RoadmapStart, 2) == Date(2027, 3, 13);
    assert IntendedYearEnd(RoadmapStart, 0) == Date(2026, 3, 12) by {
      assert YearEnd(RoadmapStart, 0) == Date(2026, 3, 13);
    }
    assert IntendedYearEnd(RoadmapStart, 1) == Date(2027, 3, 12) by {
      assert YearEnd(RoadmapStart, 1) == Date(2027, 3, 13);
    }
    assert IntendedYearEnd(RoadmapStart, 2) == Date(2028, 3, 12) by {
      assert YearEnd(RoadmapStart, 2) == Date(2028, 3, 13);
    }
    MentalHealthPlatformIntendedYear1();
    MentalHealthPlatformIntendedYear2();
    MentalHealthPlatformIntendedYear3();
  }
}
