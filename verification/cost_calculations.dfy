/**
  The per-year cost allocation engine: `calculateYearlyCosts` decides, for one
  intervention and one closed window `[yearStart, yearEnd]`, the four charges and
  their total; `calculateTotalYearlyCosts` sums the totals over a list.
 */
module CostCalculations {
  import opened Dates
  import opened Interventions

  /** What one intervention costs in one window. */
  datatype YearlyCosts = YearlyCosts(
    implementationCost: real,
    oneTimeFixedFee: real,
    pepmCost: real,
    fixedAnnualCost: real,
    total: real)

  /**
    date-fns `isWithinInterval`, closed at both ends. The engine only ever asks
    it about ordered windows (see `CalculateYearlyCosts`); on a reversed one
    this model holds nothing.
   */
  function IsWithinInterval(d: Date, start: Date, end: Date): (b: bool)
    // only an ordered window holds anything
    ensures b ==> OnOrBefore(start, end)
    // both ends belong to an ordered window
    ensures d == start || d == end ==> (b <==> OnOrBefore(start, end))
  {
    OnOrBefore(start, d) && OnOrBefore(d, end)
  }

  // ---------------------------------------------------------------------------
  // The PEPM month loop
  // ---------------------------------------------------------------------------

  /**
    The date the PEPM loop holds after `k` iterations: `d` advanced one month at
    a time. Each step clamps afresh, so a clamp is never undone
    (31 January, 28 February, 28 March, ...).
   */
  function Chain(d: CalendarDate, k: nat): (r: CalendarDate)
    ensures MonthIndex(r) == MonthIndex(d) + k
    ensures r.day <= d.day
    decreases k
  {
    if k == 0 then d else Chain(AddMonths(d, 1), k - 1)
  }

  /** One more iteration is one more `addMonths(current, 1)` on the last date. */
  lemma {:induction false} ChainStep(d: CalendarDate, k: nat)
    ensures Chain(d, k + 1) == AddMonths(Chain(d, k), 1)
    decreases k
  {
    if k > 0 {
      ChainStep(AddMonths(d, 1), k - 1);
    }
  }

  /** The loop's dates strictly increase, which is why it terminates. */
  lemma ChainIncreasing(d: CalendarDate, i: nat, j: nat)
    requires i < j
    ensures Before(Chain(d, i), Chain(d, j))
  {
    MonthIndexOrder(Chain(d, i), Chain(d, j));
  }

  /** The loop guard: the current date is on or before both the window end and the ongoing end. */
  function Billable(d: CalendarDate, yearEnd: CalendarDate, ongoingEnd: CalendarDate): (b: bool)
    // a date past either bound fails
    ensures Before(yearEnd, d) || Before(ongoingEnd, d) ==> !b
    // the bound day itself passes: the comparison is `<=`
    ensures d == yearEnd && d == ongoingEnd ==> b
  {
    OnOrBefore(d, yearEnd) && OnOrBefore(d, ongoingEnd)
  }

  /**
    The number of iterations of the PEPM loop started at `current`: every date it
    counts passes the guard, and the first date it does not count fails it.
   */
  function BillableMonths(current: CalendarDate, yearEnd: CalendarDate, ongoingEnd: CalendarDate): (n: nat)
    ensures n == 0 <==> !Billable(current, yearEnd, ongoingEnd)
    ensures forall i :: 0 <= i < n ==> Billable(Chain(current, i), yearEnd, ongoingEnd)
    ensures !Billable(Chain(current, n), yearEnd, ongoingEnd)
    decreases MonthIndex(yearEnd) - MonthIndex(current)
  {
    if Billable(current, yearEnd, ongoingEnd) then
      MonthIndexOrder(current, yearEnd);
      var next := AddMonths(current, 1);
      var rest := BillableMonths(next, yearEnd, ongoingEnd);
      assert forall i :: 1 <= i <= rest + 1 ==> Chain(current, i) == Chain(next, i - 1);
      1 + rest
    else
      0
  }

  /**
    The loop of `calculateYearlyCosts` as written: count, step one month, and
    stop at the first date past either bound. It computes `BillableMonths`, so
    every date it counts passes the guard and the date it stops on fails it.
   */
  method CountBillableMonths(start: CalendarDate, yearEnd: CalendarDate, ongoingEnd: CalendarDate)
    returns (months: nat)
    ensures months == BillableMonths(start, yearEnd, ongoingEnd)
  {
    months := 0;
    var current := start;
    while Billable(current, yearEnd, ongoingEnd)
      invariant current == Chain(start, months)
      invariant forall i :: 0 <= i < months ==> Billable(Chain(start, i), yearEnd, ongoingEnd)
      decreases MonthIndex(yearEnd) - MonthIndex(current)
    {
      MonthIndexOrder(current, yearEnd);
      ChainStep(start, months);
      months := months + 1;
      current := AddMonths(current, 1);
    }
    FirstFailureIsCount(start, yearEnd, ongoingEnd, months);
  }

  /** The loop's count is the one index whose date fails the guard after all earlier ones pass. */
  lemma FirstFailureIsCount(current: CalendarDate, yearEnd: CalendarDate, ongoingEnd: CalendarDate, m: nat)
    requires forall i :: 0 <= i < m ==> Billable(Chain(current, i), yearEnd, ongoingEnd)
    requires !Billable(Chain(current, m), yearEnd, ongoingEnd)
    ensures m == BillableMonths(current, yearEnd, ongoingEnd)
  {
    var n := BillableMonths(current, yearEnd, ongoingEnd);
    assert m < n ==> Billable(Chain(current, m), yearEnd, ongoingEnd);
    assert !Billable(Chain(current, n), yearEnd, ongoingEnd);
  }

  /** Moving the window end later never counts fewer months. */
  lemma MonthsMonotoneInYearEnd(current: CalendarDate, yearEnd: CalendarDate, laterYearEnd: CalendarDate, ongoingEnd: CalendarDate)
    requires OnOrBefore(yearEnd, laterYearEnd)
    ensures BillableMonths(current, yearEnd, ongoingEnd) <= BillableMonths(current, laterYearEnd, ongoingEnd)
  {
    var n, n' := BillableMonths(current, yearEnd, ongoingEnd), BillableMonths(current, laterYearEnd, ongoingEnd);
    assert n' < n ==> Billable(Chain(current, n'), yearEnd, ongoingEnd);
  }

  /** Moving the ongoing end later never counts fewer months. */
  lemma MonthsMonotoneInOngoingEnd(current: CalendarDate, yearEnd: CalendarDate, ongoingEnd: CalendarDate, laterOngoingEnd: CalendarDate)
    requires OnOrBefore(ongoingEnd, laterOngoingEnd)
    ensures BillableMonths(current, yearEnd, ongoingEnd) <= BillableMonths(current, yearEnd, laterOngoingEnd)
  {
    var n, n' := BillableMonths(current, yearEnd, ongoingEnd), BillableMonths(current, yearEnd, laterOngoingEnd);
    assert n' < n ==> Billable(Chain(current, n'), yearEnd, ongoingEnd);
  }

  /** The earlier of the two bounds' month indexes. */
  function BoundMonth(yearEnd: Date, ongoingEnd: Date): int {
    if MonthIndex(yearEnd) <= MonthIndex(ongoingEnd) then MonthIndex(yearEnd) else MonthIndex(ongoingEnd)
  }

  /**
    Let `gap` be the calendar-month distance from the first counted date to the
    earlier bound. The loop counts `gap + 1` months when the date it reaches in
    the bound's month still passes the guard, and `gap` otherwise: every month
    touched is billed except a last one whose (clamped) day falls after the
    bound's day.
   */
  lemma MonthsFromCalendarGap(current: CalendarDate, yearEnd: CalendarDate, ongoingEnd: CalendarDate)
    requires Billable(current, yearEnd, ongoingEnd)
    ensures var gap := BoundMonth(yearEnd, ongoingEnd) - MonthIndex(current);
      && gap >= 0
      && BillableMonths(current, yearEnd, ongoingEnd)
         == if Billable(Chain(current, gap), yearEnd, ongoingEnd) then gap + 1 else gap
  {
    var n := BillableMonths(current, yearEnd, ongoingEnd);
    MonthIndexOrder(current, yearEnd);
    MonthIndexOrder(current, ongoingEnd);
    var gap := BoundMonth(yearEnd, ongoingEnd) - MonthIndex(current);
    if n > gap + 1 {
      var past := Chain(current, gap + 1);
      assert Billable(past, yearEnd, ongoingEnd);
      MonthIndexOrder(past, yearEnd);
      MonthIndexOrder(past, ongoingEnd);
      assert false;
    }
    var stop := Chain(current, n);
    MonthIndexOrder(yearEnd, stop);
    MonthIndexOrder(ongoingEnd, stop);
    assert n >= gap;
    assert n == gap + 1 ==> Billable(Chain(current, gap), yearEnd, ongoingEnd);
  }

  /**
    From a day of the month that every month has, the count is the number of
    whole calendar months to the earlier bound, plus one when the start's day
    still fits in that bound's month.
   */
  lemma MonthsForSmallDay(current: CalendarDate, yearEnd: CalendarDate, ongoingEnd: CalendarDate)
    requires current.day <= 28
    requires Billable(current, yearEnd, ongoingEnd)
    ensures var bound := BoundMonth(yearEnd, ongoingEnd);
      var fits := (MonthIndex(yearEnd) == bound ==> current.day <= yearEnd.day)
               && (MonthIndex(ongoingEnd) == bound ==> current.day <= ongoingEnd.day);
      BillableMonths(current, yearEnd, ongoingEnd) == bound - MonthIndex(current) + (if fits then 1 else 0)
  {
    MonthsFromCalendarGap(current, yearEnd, ongoingEnd);
    var gap := BoundMonth(yearEnd, ongoingEnd) - MonthIndex(current);
    var last := Chain(current, gap);
    ChainKeepsSmallDay(current, gap);
    MonthIndexOrder(last, yearEnd);
    MonthIndexOrder(last, ongoingEnd);
    MonthIndexOrder(yearEnd, last);
    MonthIndexOrder(ongoingEnd, last);
  }

  /** A day of the month that every month has (1 to 28) survives every step of the loop. */
  lemma {:induction false} ChainKeepsSmallDay(d: CalendarDate, k: nat)
    requires d.day <= 28
    ensures Chain(d, k).day == d.day
    decreases k
  {
    if k > 0 {
      ChainKeepsSmallDay(AddMonths(d, 1), k - 1);
    }
  }

  // ---------------------------------------------------------------------------
  // calculateYearlyCosts / calculateTotalYearlyCosts
  // ---------------------------------------------------------------------------

  /** `monthlyPEPM * months`, with `monthlyPEPM` the rate times the headcount. */
  function PepmAmount(rate: real, headcount: real, months: nat): (r: real)
    ensures months == 0 ==> r == 0.0
    ensures rate >= 0.0 && headcount >= 0.0 ==> r >= 0.0
  {
    ProductNonNegative(rate, headcount, months as real);
    rate * headcount * (months as real)
  }

  lemma ProductNonNegative(a: real, b: real, c: real)
    ensures a >= 0.0 && b >= 0.0 && c >= 0.0 ==> a * b * c >= 0.0
  {
    if a >= 0.0 && b >= 0.0 && c >= 0.0 {
      assert a * b >= 0.0;
    }
  }

  /**
    The PEPM component: the monthly rate times the headcount times the months the
    loop counts from the later of the ongoing start and the window start; nothing
    when the headcount is absent or 0.
   */
  function PepmCost(iv: Intervention, yearStart: CalendarDate, yearEnd: CalendarDate): (r: real)
    ensures !HasEmployees(iv) ==> r == 0.0
    ensures HasEmployees(iv) ==>
      r == PepmAmount(iv.costs.ongoingCostPEPM, iv.eligibleEmployees.value,
                      BillableMonths(Latest(iv.timeline.ongoingStartDate, yearStart), yearEnd, iv.timeline.ongoingEndDate))
    ensures NonNegative(iv) ==> r >= 0.0
  {
    if HasEmployees(iv) then
      var months := BillableMonths(Latest(iv.timeline.ongoingStartDate, yearStart), yearEnd, iv.timeline.ongoingEndDate);
      PepmAmount(iv.costs.ongoingCostPEPM, iv.eligibleEmployees.value, months)
    else 0.0
  }

  /**
    `calculateYearlyCosts(intervention, yearStart, yearEnd)`.
    The window must be ordered: date-fns 2 rejects a reversed interval in
    `isWithinInterval` and later versions reorder it. The cost table's windows
    are ordered (`CostTable.YearWindowsOrdered`); the budget windows are
    assumed ordered (`Roadmap.OrderedYearEnds`).
   */
  function CalculateYearlyCosts(iv: Intervention, yearStart: CalendarDate, yearEnd: CalendarDate): (r: YearlyCosts)
    requires OnOrBefore(yearStart, yearEnd)
    // the implementation cost falls in the window holding its start date, ends included
    ensures r.implementationCost ==
      (if OnOrBefore(yearStart, iv.timeline.implementationStartDate) && OnOrBefore(iv.timeline.implementationStartDate, yearEnd)
       then iv.costs.implementationCost else 0.0)
    // the one-time fee falls in the window holding the ongoing start, ends included
    ensures r.oneTimeFixedFee ==
      (if OnOrBefore(yearStart, iv.timeline.ongoingStartDate) && OnOrBefore(iv.timeline.ongoingStartDate, yearEnd)
       then iv.costs.oneTimeFixedFee else 0.0)
    ensures r.pepmCost == PepmCost(iv, yearStart, yearEnd)
    // the annual fee is charged when the ongoing window starts by the window end and
    // either starts inside it or is still running strictly after its first day
    ensures r.fixedAnnualCost ==
      (if OnOrBefore(iv.timeline.ongoingStartDate, yearEnd)
          && (OnOrBefore(yearStart, iv.timeline.ongoingStartDate) || Before(yearStart, iv.timeline.ongoingEndDate))
       then iv.costs.ongoingCostFixed else 0.0)
    // a window that is charged the one-time fee is also charged the annual fee
    ensures IsWithinInterval(iv.timeline.ongoingStartDate, yearStart, yearEnd) ==>
      r.oneTimeFixedFee == iv.costs.oneTimeFixedFee && r.fixedAnnualCost == iv.costs.ongoingCostFixed
    ensures r.total == r.implementationCost + r.oneTimeFixedFee + r.pepmCost + r.fixedAnnualCost
  {
    var t := iv.timeline;
    var c := iv.costs;
    var implementationCost := if IsWithinInterval(t.implementationStartDate, yearStart, yearEnd) then c.implementationCost else 0.0;
    var oneTimeFixedFee := if IsWithinInterval(t.ongoingStartDate, yearStart, yearEnd) then c.oneTimeFixedFee else 0.0;
    var pepmCost := PepmCost(iv, yearStart, yearEnd);
    var fixedAnnualCost :=
      if IsWithinInterval(t.ongoingStartDate, yearStart, yearEnd)
         || (Before(t.ongoingStartDate, yearStart) && Before(yearStart, t.ongoingEndDate))
      then c.ongoingCostFixed else 0.0;
    YearlyCosts(implementationCost, oneTimeFixedFee, pepmCost, fixedAnnualCost,
                implementationCost + oneTimeFixedFee + pepmCost + fixedAnnualCost)
  }

  /** With non-negative amounts and headcount, every component and the total are non-negative. */
  lemma YearlyCostsNonNegative(iv: Intervention, yearStart: CalendarDate, yearEnd: CalendarDate)
    requires OnOrBefore(yearStart, yearEnd)
    ensures var r := CalculateYearlyCosts(iv, yearStart, yearEnd);
      NonNegative(iv) ==>
      && r.implementationCost >= 0.0 && r.oneTimeFixedFee >= 0.0 && r.pepmCost >= 0.0
      && r.fixedAnnualCost >= 0.0 && r.total >= 0.0
  {
  }

  /**
    `calculateTotalYearlyCosts`: `reduce` from the left, starting at 0, adding
    each intervention's total for the window.
   */
  function CalculateTotalYearlyCosts(ivs: seq<Intervention>, yearStart: CalendarDate, yearEnd: CalendarDate): (total: real)
    requires OnOrBefore(yearStart, yearEnd)
    ensures |ivs| == 0 ==> total == 0.0
    ensures (forall i :: 0 <= i < |ivs| ==> NonNegative(ivs[i])) ==> total >= 0.0
    decreases |ivs|
  {
    if |ivs| == 0 then 0.0
    else
      var init := ivs[..|ivs| - 1];
      assert forall i :: 0 <= i < |init| ==> init[i] == ivs[i];
      YearlyCostsNonNegative(ivs[|ivs| - 1], yearStart, yearEnd);
      CalculateTotalYearlyCosts(init, yearStart, yearEnd)
        + CalculateYearlyCosts(ivs[|ivs| - 1], yearStart, yearEnd).total
  }

  /** The total distributes over concatenation of intervention lists. */
  lemma {:induction false} TotalOfConcat(a: seq<Intervention>, b: seq<Intervention>, yearStart: CalendarDate, yearEnd: CalendarDate)
    requires OnOrBefore(yearStart, yearEnd)
    ensures CalculateTotalYearlyCosts(a + b, yearStart, yearEnd)
         == CalculateTotalYearlyCosts(a, yearStart, yearEnd) + CalculateTotalYearlyCosts(b, yearStart, yearEnd)
    decreases |b|
  {
    if |b| == 0 {
      assert a + b == a;
    } else {
      var b' := b[..|b| - 1];
      TotalOfConcat(a, b', yearStart, yearEnd);
      assert (a + b)[..|a + b| - 1] == a + b';
      assert (a + b)[|a + b| - 1] == b[|b| - 1];
    }
  }

  /** A singleton list totals that intervention's own total. */
  lemma TotalOfSingleton(iv: Intervention, yearStart: CalendarDate, yearEnd: CalendarDate)
    requires OnOrBefore(yearStart, yearEnd)
    ensures CalculateTotalYearlyCosts([iv], yearStart, yearEnd) == CalculateYearlyCosts(iv, yearStart, yearEnd).total
  {
    assert [iv][..0] == [];
  }

  /** Taking one intervention out of the list takes its own total out of the sum. */
  lemma TotalWithout(b: seq<Intervention>, j: nat, yearStart: CalendarDate, yearEnd: CalendarDate)
    requires OnOrBefore(yearStart, yearEnd)
    requires j < |b|
    ensures CalculateTotalYearlyCosts(b, yearStart, yearEnd)
         == CalculateTotalYearlyCosts(b[..j] + b[j + 1..], yearStart, yearEnd)
            + CalculateYearlyCosts(b[j], yearStart, yearEnd).total
  {
    var p, x, q := b[..j], b[j], b[j + 1..];
    assert b == (p + [x]) + q;
    TotalOfConcat(p + [x], q, yearStart, yearEnd);
    TotalOfConcat(p, [x], yearStart, yearEnd);
    TotalOfConcat(p, q, yearStart, yearEnd);
    TotalOfSingleton(x, yearStart, yearEnd);
  }

  /** Removing the same element from two permutations of each other leaves permutations. */
  lemma MultisetWithout<T>(a: seq<T>, b: seq<T>, j: nat)
    requires |a| > 0 && j < |b| && b[j] == a[|a| - 1]
    requires multiset(a) == multiset(b)
    ensures multiset(a[..|a| - 1]) == multiset(b[..j] + b[j + 1..])
  {
    var x := b[j];
    var a', b' := a[..|a| - 1], b[..j] + b[j + 1..];
    assert a == a' + [x];
    assert b == b[..j] + [x] + b[j + 1..];
    calc {
      multiset(b') + multiset{x};
      multiset(b[..j]) + multiset(b[j + 1..]) + multiset([x]);
      multiset(b[..j] + [x] + b[j + 1..]);
      multiset(a' + [x]);
      multiset(a') + multiset{x};
    }
    assert multiset(a') == multiset(a') + multiset{x} - multiset{x};
    assert multiset(b') == multiset(b') + multiset{x} - multiset{x};
  }

  /** The aggregate is a pure sum: reordering the interventions does not change it. */
  lemma {:induction false} TotalIgnoresOrder(a: seq<Intervention>, b: seq<Intervention>, yearStart: CalendarDate, yearEnd: CalendarDate)
    requires OnOrBefore(yearStart, yearEnd)
    requires multiset(a) == multiset(b)
    ensures CalculateTotalYearlyCosts(a, yearStart, yearEnd) == CalculateTotalYearlyCosts(b, yearStart, yearEnd)
    decreases |a|
  {
    if |a| == 0 {
      assert |b| == |multiset(b)| == 0;
    } else {
      var x := a[|a| - 1];
      assert x in multiset(b);
      var j :| 0 <= j < |b| && b[j] == x;
      MultisetWithout(a, b, j);
      TotalIgnoresOrder(a[..|a| - 1], b[..j] + b[j + 1..], yearStart, yearEnd);
      TotalWithout(b, j, yearStart, yearEnd);
    }
  }
}
