/**
  The roadmap page's pure rules: replacing an edited intervention by id, and
  deriving the three yearly budgets from the selected interventions.
 */
module Roadmap {
  import opened Dates
  import opened Interventions
  import opened CostCalculations

  // ---------------------------------------------------------------------------
  // handleSaveIntervention
  // ---------------------------------------------------------------------------

  /** `selected.map(iv => iv.id === updated.id ? updated : iv)`. */
  function ReplaceById(xs: seq<Intervention>, updated: Intervention): (r: seq<Intervention>)
    ensures |r| == |xs|
    // every element with the updated id becomes the updated record
    ensures forall i :: 0 <= i < |xs| && xs[i].id == updated.id ==> r[i] == updated
    // every other element stays, in place
    ensures forall i :: 0 <= i < |xs| && xs[i].id != updated.id ==> r[i] == xs[i]
    decreases |xs|
  {
    if |xs| == 0 then []
    else
      var rest := ReplaceById(xs[1..], updated);
      [if xs[0].id == updated.id then updated else xs[0]] + rest
  }

  /** The ids of a list, in order. */
  function Ids(xs: seq<Intervention>): (r: seq<int>)
    ensures |r| == |xs|
    ensures forall i :: 0 <= i < |xs| ==> r[i] == xs[i].id
  {
    seq(|xs|, i requires 0 <= i < |xs| => xs[i].id)
  }

  /** Saving an edit never adds, drops or reorders ids. */
  lemma ReplaceByIdKeepsIds(xs: seq<Intervention>, updated: Intervention)
    ensures Ids(ReplaceById(xs, updated)) == Ids(xs)
  {
  }

  /** Saving a record whose id is not in the list leaves the list unchanged. */
  lemma ReplaceByIdNoMatch(xs: seq<Intervention>, updated: Intervention)
    requires updated.id !in Ids(xs)
    ensures ReplaceById(xs, updated) == xs
  {
    var r := ReplaceById(xs, updated);
    forall i | 0 <= i < |xs|
      ensures r[i] == xs[i]
    {
      assert Ids(xs)[i] == xs[i].id;
    }
  }

  /** Saving the same edit twice is the same as saving it once. */
  lemma ReplaceByIdIdempotent(xs: seq<Intervention>, updated: Intervention)
    ensures ReplaceById(ReplaceById(xs, updated), updated) == ReplaceById(xs, updated)
  {
  }

  /**
    When exactly one record carries the id, saving an edit moves a window's
    aggregate by the edited record's new total minus its old one.
   */
  lemma ReplaceByIdAdjustsTotal(xs: seq<Intervention>, j: nat, updated: Intervention, yearStart: CalendarDate, yearEnd: CalendarDate)
    requires OnOrBefore(yearStart, yearEnd)
    requires j < |xs| && xs[j].id == updated.id
    requires forall i :: 0 <= i < |xs| && i != j ==> xs[i].id != updated.id
    ensures CalculateTotalYearlyCosts(ReplaceById(xs, updated), yearStart, yearEnd)
         == CalculateTotalYearlyCosts(xs, yearStart, yearEnd)
            - CalculateYearlyCosts(xs[j], yearStart, yearEnd).total
            + CalculateYearlyCosts(updated, yearStart, yearEnd).total
  {
    var r := ReplaceById(xs, updated);
    assert r[..j] + r[j + 1..] == xs[..j] + xs[j + 1..];
    assert r[j] == updated;
    TotalWithout(xs, j, yearStart, yearEnd);
    TotalWithout(r, j, yearStart, yearEnd);
  }

  // ---------------------------------------------------------------------------
  // The yearly budgets effect
  // ---------------------------------------------------------------------------

  /** `YearlyBudget`; its `allocated` field is `allocation` here (`allocated` is a Dafny keyword). */
  datatype YearlyBudget = YearlyBudget(allocation: real, spent: real, isOverBudget: bool)

  /** One budget entry: over budget exactly when spending strictly exceeds the allocation. */
  function CompareBudget(allocatedAmount: real, spent: real): (b: YearlyBudget)
    ensures b.allocation == allocatedAmount && b.spent == spent
    ensures b.isOverBudget <==> spent > allocatedAmount
    ensures spent == allocatedAmount ==> !b.isOverBudget
  {
    YearlyBudget(allocatedAmount, spent, spent > allocatedAmount)
  }

  /**
    The ordered window a year end function gives for every budget year.
    `getYearEndDate` is not part of this model: the year end is whatever the
    caller's function returns, provided it does not precede the year start.
   */
  predicate OrderedYearEnds(startDate: CalendarDate, yearEndOf: CalendarDate -> CalendarDate) {
    forall k: nat :: k < 3 ==> OnOrBefore(AddMonths(startDate, 12 * k), yearEndOf(AddMonths(startDate, 12 * k)))
  }

  /**
    The effect that rebuilds `yearlyBudgets`: three entries, each allocating the
    single yearly budget and spending the aggregate over the selected
    interventions for that year's window.
   */
  function DeriveYearlyBudgets(selected: seq<Intervention>, startDate: CalendarDate, yearlyBudget: real,
                               yearEndOf: CalendarDate -> CalendarDate): (r: seq<YearlyBudget>)
    requires OrderedYearEnds(startDate, yearEndOf)
    ensures |r| == 3
    ensures forall k: nat :: k < 3 ==> r[k].allocation == yearlyBudget
    ensures forall k: nat :: k < 3 ==>
      var yearStart := AddMonths(startDate, 12 * k);
      r[k].spent == CalculateTotalYearlyCosts(selected, yearStart, yearEndOf(yearStart))
    ensures forall k: nat :: k < 3 ==> (r[k].isOverBudget <==> r[k].spent > yearlyBudget)
  {
    seq(3, k requires 0 <= k < 3 =>
      var yearStart := AddMonths(startDate, 12 * k);
      CompareBudget(yearlyBudget, CalculateTotalYearlyCosts(selected, yearStart, yearEndOf(yearStart))))
  }

  /**
    The three budget years start in strictly increasing order, the first on the
    roadmap start, each twelve calendar months after the previous one.
   */
  lemma BudgetYearsAscend(startDate: CalendarDate)
    ensures AddMonths(startDate, 0) == startDate
    ensures Before(AddMonths(startDate, 0), AddMonths(startDate, 12))
    ensures Before(AddMonths(startDate, 12), AddMonths(startDate, 24))
    ensures MonthIndex(AddMonths(startDate, 24)) == MonthIndex(startDate) + 24
  {
    var y0, y1, y2 := AddMonths(startDate, 0), AddMonths(startDate, 12), AddMonths(startDate, 24);
    assert y0 == startDate by {
      assert y0.year == startDate.year && y0.month == startDate.month by {
        assert y0.year * 12 + y0.month == startDate.year * 12 + startDate.month;
      }
    }
    assert Before(y0, y1) by {
      MonthIndexOrder(y0, y1);
    }
    assert Before(y1, y2) by {
      MonthIndexOrder(y1, y2);
    }
  }

  /**
    The budgets only see the selection as a bag: reordering the selected
    interventions yields the same three entries.
   */
  lemma BudgetsIgnoreSelectionOrder(a: seq<Intervention>, b: seq<Intervention>, startDate: CalendarDate,
                                    yearlyBudget: real, yearEndOf: CalendarDate -> CalendarDate)
    requires OrderedYearEnds(startDate, yearEndOf)
    requires multiset(a) == multiset(b)
    ensures DeriveYearlyBudgets(a, startDate, yearlyBudget, yearEndOf) == DeriveYearlyBudgets(b, startDate, yearlyBudget, yearEndOf)
  {
    var ra, rb := DeriveYearlyBudgets(a, startDate, yearlyBudget, yearEndOf), DeriveYearlyBudgets(b, startDate, yearlyBudget, yearEndOf);
    forall k: nat | k < 3
      ensures ra[k] == rb[k]
    {
      var yearStart := AddMonths(startDate, 12 * k);
      TotalIgnoresOrder(a, b, yearStart, yearEndOf(yearStart));
    }
  }
}
