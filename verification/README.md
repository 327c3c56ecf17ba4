# Roadmap cost engine, in Dafny

This project models the multi-year cost allocation engine of a wellbeing
roadmap planner. An organisation selects "interventions": benefit programmes,
each with the following:

- an implementation start;
- an ongoing-operation window;
- four cost components: an implementation cost, a one-time fixed fee, a
  per-employee-per-month (PEPM) rate and a fixed annual fee;
- an optional eligible headcount.

The engine decides which of three one-year periods, counted from a roadmap
start date, each component is charged in, and how much.

The modules follow the program's structure:

- `Dates` models the calendar arithmetic the engine relies on: date-fns
  `addMonths` with its day clamping, `addYears`, the day before a date, and
  date order.
- `Interventions` holds the intervention records.
- `CostCalculations` models `calculateYearlyCosts`, including its PEPM month
  loop, and `calculateTotalYearlyCosts`.
- `CostTable` models the table's three `addYears` windows, its rows and its
  footer totals.
- `Roadmap` models saving an edited intervention and deriving the three
  yearly budgets.
- `Selection` models the membership toggle shared by the table's expand
  state and the selection page.
- `Scenarios` works through the roadmap page's first demonstration record.

Money and headcounts are `real`. Dates are calendar days (year, month, day),
ordered by their date.

The model follows the code as written. In particular:

- The annual fixed fee uses the code's two-part test: the ongoing start lies
  inside the window, or it lies strictly before the window start while the
  ongoing end lies strictly after it. It is not a three-way overlap test.
- The cost table's windows are closed at both ends and run from
  `addYears(start, k)` to `addYears(start, k + 1)`, although the column
  headings (`src/components/CostTable.tsx:32-38`) display the day before as the
  year's end. Neighbouring windows therefore share a day (see Findings).
- One-off charges are placed with `isWithinInterval` on the window itself.
  No separate "which year" function exists.
- The PEPM count is the number of `addMonths` steps that stay on or before
  both bounds. `CostCalculations.MonthsFromCalendarGap` states it in
  calendar terms.

## Model

| member | source | states |
|---|---|---|
| Dates.AddMonths | src/utils/costCalculations.ts:41 | date-fns `addMonths`: the result is exactly `n` calendar months on; its day never grows and is either kept or clamped to the last day of the target month |
| Dates.AddYears | src/components/CostTable.tsx:66-67 | `addYears(d, n)`: same month, `n` years on, same day except that 29 February becomes 28 February in a common year |
| Dates.AddYearsTwice | src/components/CostTable.tsx:66-67 | `addYears(addYears(d, k), 1)` is `addYears(d, k + 1)` except when a 29 February clamped in a common year would land in a leap year |
| Dates.PrevDay | src/components/CostTable.tsx:35 | the day before `d` is before `d`, and every date before `d` is on or before it |
| Dates.Latest | src/utils/costCalculations.ts:32 | the later of two dates is one of them and no earlier than either |
| Dates.MonthIndexOrder | src/utils/costCalculations.ts:36-38 | an earlier calendar month means an earlier date; an earlier or equal date never has a later month |
| Dates.AddMonthsAdvances | src/utils/costCalculations.ts:41 | moving forward one or more months lands strictly later; zero or more months never lands earlier |
| Dates.AddMonthsMonotone | src/app/roadmap/page.tsx:79 | `addMonths(start, m)` is monotone in `m` |
| Dates.AddMonthsTwiceNotLater | src/utils/costCalculations.ts:41 | two successive month shifts never land later than one shift by the combined amount, because a clamp is never undone |
| CostCalculations.IsWithinInterval | src/utils/costCalculations.ts:9-12 | date-fns `isWithinInterval`, both ends included: only an ordered window holds a date, and its two ends always belong to it; on a reversed window date-fns behaves differently by version (see Left out), so the model holds nothing |
| Interventions.HasEmployees | src/utils/costCalculations.ts:25 | JavaScript truthiness of the headcount: absent and 0 are falsy, a positive headcount is truthy, and a truthy one is present; `NaN` is not represented |
| CostCalculations.Billable | src/utils/costCalculations.ts:36-38 | the loop guard: a date past either the window end or the ongoing end fails; a date equal to both bounds passes, since both comparisons are `<=` |
| CostCalculations.Chain | src/utils/costCalculations.ts:36-42 | the date the loop holds after `k` iterations is `k` calendar months on, and its day never exceeds the first day-of-month |
| CostCalculations.ChainStep | src/utils/costCalculations.ts:41 | iteration `k + 1` is `addMonths(·, 1)` applied to iteration `k`, matching the loop's own update |
| CostCalculations.ChainIncreasing | src/utils/costCalculations.ts:36-42 | the loop's dates strictly increase, so the loop terminates |
| CostCalculations.BillableMonths | src/utils/costCalculations.ts:31-42 | the month count is 0 exactly when the first date already fails the guard; every counted date passes both bounds; the first uncounted date fails one |
| CostCalculations.CountBillableMonths | src/utils/costCalculations.ts:31-42 | the loop as written returns exactly the recursive count `BillableMonths`, so every date it counts passes the guard and the date it stops on fails it |
| CostCalculations.FirstFailureIsCount | src/utils/costCalculations.ts:36-42 | any index whose date fails the guard after all earlier dates pass is the count |
| CostCalculations.MonthsMonotoneInYearEnd | src/utils/costCalculations.ts:37 | a later window end never yields fewer PEPM months |
| CostCalculations.MonthsMonotoneInOngoingEnd | src/utils/costCalculations.ts:38 | a later ongoing end never yields fewer PEPM months |
| CostCalculations.MonthsFromCalendarGap | src/utils/costCalculations.ts:31-42 | closed form: with `gap` calendar months from the first date to the earlier bound, the count is `gap + 1` if the date reached in the bound's month still passes the guard, else `gap` |
| CostCalculations.MonthsForSmallDay | src/utils/costCalculations.ts:31-42 | for a start day of 28 or less: the count is the whole months to the earlier bound, plus one when the start's day fits within that bound's day |
| CostCalculations.ChainKeepsSmallDay | src/utils/costCalculations.ts:41 | a day of the month from 1 to 28 is never clamped by the loop |
| CostCalculations.PepmAmount | src/utils/costCalculations.ts:44 | rate × headcount × months is 0 for zero months and non-negative for non-negative inputs |
| CostCalculations.PepmCost | src/utils/costCalculations.ts:24-45 | the PEPM charge is 0 without a (non-zero) headcount; otherwise it is rate × headcount × the loop count from the later of the ongoing start and the window start; it is non-negative for non-negative records |
| CostCalculations.CalculateYearlyCosts | src/utils/costCalculations.ts:4-65 | each one-off charge is made iff its anchor date lies in the closed window; the annual fee is charged iff the ongoing start is by the window end and either starts in the window or runs past its first day; a window charged the one-time fee is also charged the annual fee; the total is the sum of the four parts |
| CostCalculations.YearlyCostsNonNegative | src/utils/costCalculations.ts:58-64 | non-negative amounts and headcount give non-negative components and total |
| CostCalculations.CalculateTotalYearlyCosts | src/utils/costCalculations.ts:67-77 | the aggregate of no interventions is 0, and of non-negative ones is non-negative |
| CostCalculations.TotalOfConcat | src/utils/costCalculations.ts:72-76 | the aggregate distributes over concatenation of intervention lists |
| CostCalculations.TotalOfSingleton | src/utils/costCalculations.ts:72-76 | the aggregate of one intervention is its own total |
| CostCalculations.TotalWithout | src/utils/costCalculations.ts:72-76 | removing one intervention removes exactly its total from the aggregate |
| CostCalculations.TotalIgnoresOrder | src/utils/costCalculations.ts:67-77 | any permutation of the interventions gives the same aggregate |
| CostTable.YearWindowsOrdered | src/components/CostTable.tsx:65-67 | each table window is non-empty and starts no earlier than the roadmap start; later years start later |
| CostTable.RowCosts | src/components/CostTable.tsx:65-69 | a row holds exactly three breakdowns, year `k` computed over `[addYears(start, k), addYears(addYears(start, k), 1)]` |
| CostTable.FooterYearTotal | src/components/CostTable.tsx:155-162 | the footer's accumulating loop equals the aggregate over the interventions for that year's window, and is non-negative for non-negative records |
| CostTable.YearStart | src/components/CostTable.tsx:66 | year `k` opens `k` whole years after the roadmap start, in its calendar month, on its day unless a 29 February start lands in a common year |
| CostTable.YearEnd | src/components/CostTable.tsx:67 | year `k` closes one whole year after it opens, in the same calendar month, never on a later day of the month than the roadmap start |
| CostTable.YearEndIsNextYearStart | src/components/CostTable.tsx:66-67 | year `k`'s closing day is year `k + 1`'s opening day, for every start date including 29 February |
| CostTable.BoundaryDayChargedTwice | src/components/CostTable.tsx:66-68 | as written: an implementation cost or one-time fee dated on the first day of year 2 or year 3 is charged in that year and the one before, twice in all |
| CostTable.BoundaryDayInTwoWindows | src/components/CostTable.tsx:66-67 | the first day of year 2 or year 3 lies in that year's window and the one before, and in no other table window |
| CostTable.IntendedYearEnd | src/components/CostTable.tsx:32-38 | the heading's year end, the day before `addYears(yearStart, 1)`, lies inside the window and before the closing day as written |
| CostTable.IntendedRowCosts | src/components/CostTable.tsx:32-38 | the corrected rows: each year's breakdown over the window the heading displays |
| CostTable.IntendedWindowsPartition | src/components/CostTable.tsx:32-38 | the displayed windows partition the roadmap: a day inside it lies in exactly one of them, a day outside it in none |
| CostTable.IntendedOneOffChargedOnce | src/components/CostTable.tsx:32-38 | with the displayed windows, the implementation cost and the one-time fee each land in exactly one year, or none when their date is outside the roadmap |
| CostTable.WindowBillsThirteenMonths | src/components/CostTable.tsx:66-67 | as written: from a start day of 28 or less, an ongoing window that runs at least to year `k`'s closing day is billed 13 PEPM months in that year |
| CostTable.IntendedWindowBillsTwelveMonths | src/components/CostTable.tsx:32-38 | for start days 1 to 28 only: over the displayed window, closing the day before, the same ongoing window is billed 12 months |
| CostTable.RowChargesThirteenMonths | src/components/CostTable.tsx:65-69 | as written: the row charges such an intervention rate × headcount × 13 for year `k` |
| CostTable.IntendedRowChargesTwelveMonths | src/components/CostTable.tsx:32-38 | for start days 1 to 28 only: the corrected row charges it rate × headcount × 12 |
| CostTable.IntendedWindowFromMonthEndBillsThirteen | src/components/CostTable.tsx:32-38 | from 31 March 2025 the displayed window closes on 30 March 2026 and still bills 13 months, since the February step clamps the day to 28 |
| CostTable.MonthsFromThirtyFirstOfMarch | src/utils/costCalculations.ts:36-42 | from any 31 March followed by a common year, up to 30 March of that year, the loop counts 13 months |
| CostTable.IntendedWindowThroughLeapFebruaryBillsTwelve | src/components/CostTable.tsx:32-38 | from 29 January 2028 the displayed window closes on 28 January 2029 and bills 12 months, since the leap February keeps the day on the 29th |
| CostTable.MonthsFromLeapJanuary | src/utils/costCalculations.ts:36-42 | from any 29 January of a leap year, up to 28 January of the next year, the loop counts 12 months |
| CostTable.ChainKeepsTwentyNinth | src/utils/costCalculations.ts:41 | from 29 January of a leap year, twelve `addMonths` steps never clamp the day |
| CostTable.ClampedLastMonth | src/utils/costCalculations.ts:36-41 | when the loop's date sits in a month no longer than the closing day, the next step still passes, so every month up to the bound's month is counted |
| CostTable.FixedFeeEveryYear | src/utils/costCalculations.ts:48-56 | an ongoing window that starts by the roadmap start and runs past year 3's start is charged the annual fee in all three table years |
| Roadmap.ReplaceById | src/app/roadmap/page.tsx:67-72 | saving an edit keeps the length; each element with the edited id becomes the edited record; every other element stays in place |
| Roadmap.ReplaceByIdKeepsIds | src/app/roadmap/page.tsx:69-71 | saving an edit never adds, drops or reorders ids |
| Roadmap.ReplaceByIdNoMatch | src/app/roadmap/page.tsx:69-71 | saving a record whose id is absent leaves the list unchanged |
| Roadmap.ReplaceByIdIdempotent | src/app/roadmap/page.tsx:69-71 | saving the same edit twice equals saving it once |
| Roadmap.ReplaceByIdAdjustsTotal | src/app/roadmap/page.tsx:67-89 | when one record carries the id, a window's aggregate moves by the edited record's new total minus its old one |
| Roadmap.CompareBudget | src/app/roadmap/page.tsx:82-86 | a budget entry is over budget exactly when spending strictly exceeds the allocation, so spending equal to it is not over |
| Roadmap.DeriveYearlyBudgets | src/app/roadmap/page.tsx:77-89 | three entries, each allocating the yearly budget and spending the aggregate over year `k`'s window from `addMonths(start, 12k)`, over budget iff spending exceeds it |
| Roadmap.BudgetYearsAscend | src/app/roadmap/page.tsx:78-79 | the budget years start on the roadmap start and then strictly later, 24 calendar months on by the third |
| Roadmap.BudgetsIgnoreSelectionOrder | src/app/roadmap/page.tsx:77-89 | reordering the selected interventions leaves all three budget entries unchanged |
| Selection.RemoveAll | src/components/CostTable.tsx:17 | filtering removes every occurrence of the id, keeps membership of every other id, and leaves the list unchanged when the id is absent |
| Selection.RemoveAllConcat | src/components/CostTable.tsx:17 | filtering a concatenation filters each part |
| Selection.RemoveAllIdempotent | src/components/CostTable.tsx:17 | filtering twice by one id is filtering once |
| Selection.RemoveAllShrinks | src/components/CostTable.tsx:17 | filtering out an id that occurs removes at least one element |
| Selection.Toggle | src/components/CostTable.tsx:14-20 | a present id disappears entirely; an absent id is appended at the end; membership of the toggled id flips; other ids keep their membership |
| Selection.ToggleKeepsOthersInOrder | src/app/page.tsx:38-44 | apart from the toggled id, the list keeps its elements in their relative order |
| Selection.ToggleTwiceAbsent | src/app/page.tsx:38-44 | toggling an absent id twice restores the list |
| Selection.ToggleTwicePresent | src/app/page.tsx:38-44 | toggling a present id twice leaves one copy, at the end, after the other ids |
| Scenarios.MentalHealthPlatformMonthsYear1 | src/app/roadmap/page.tsx:18-23 | from 1 September 2025 the loop counts 7 months before the window end of 13 March 2026 |
| Scenarios.MentalHealthPlatformMonthsYear2 | src/app/roadmap/page.tsx:18-23 | from 13 March 2026 it counts 12 months before the ongoing end of 12 March 2027 |
| Scenarios.MentalHealthPlatformYear1 | src/app/roadmap/page.tsx:14-31 | year 1 of the demonstration record costs 120,000 + 1,500 + 8,575 + 10,000 = 140,075 |
| Scenarios.MentalHealthPlatformYear2 | src/app/roadmap/page.tsx:14-31 | year 2 costs 14,700 PEPM + 10,000 fixed = 24,700 |
| Scenarios.MentalHealthPlatformYear3 | src/app/roadmap/page.tsx:14-31 | year 3 costs nothing: the ongoing window ends the day before it starts |
| Scenarios.MentalHealthPlatformRow | src/components/CostTable.tsx:65-69 | the table row for that record from 13 March 2025 holds the three breakdowns above |
| Scenarios.MentalHealthPlatformMonthsYear1Heading | src/app/roadmap/page.tsx:18-23 | over the first year as its heading displays it, ending 12 March 2026, the loop still counts 7 months |
| Scenarios.MentalHealthPlatformMonthsYear2Heading | src/app/roadmap/page.tsx:18-23 | over the second year as displayed, ending 12 March 2027, it still counts 12 months |
| Scenarios.MentalHealthPlatformIntendedYear1 | src/components/CostTable.tsx:32-38 | over the displayed first year the record costs 140,075, as in the window as written |
| Scenarios.MentalHealthPlatformIntendedYear2 | src/components/CostTable.tsx:32-38 | over the displayed second year it costs 24,700, as written |
| Scenarios.MentalHealthPlatformIntendedYear3 | src/components/CostTable.tsx:32-38 | over the displayed third year it costs nothing, as written |
| Scenarios.MentalHealthPlatformIntendedRow | src/components/CostTable.tsx:32-38 | the corrected row for the record holds the same three breakdowns as the row as written: none of its dates falls on a shared boundary day |

## Left out

- `getYearEndDate` is not part of this model. The budget derivation takes the
  year-end rule as a function parameter, required only to give an ordered
  window.
- CalculateYearlyCosts requires `yearStart <= yearEnd`. The cost table's
  windows are proved ordered (`CostTable.YearWindowsOrdered`). The budget
  windows end at `getYearEndDate(yearStart)`
  (`src/app/roadmap/page.tsx:80`), whose body is not part of this model. The
  model assumes those windows ordered, through `Roadmap.OrderedYearEnds`. That
  is an assumption, not a proof: a comment in
  `src/components/GanttChart.tsx:14-15` suggests the function subtracts a day,
  which would make the window reversed. Version 2 of date-fns rejects a reversed
  interval in `isWithinInterval`, and later versions reorder it; which
  version is used is not known here.
- The fourth argument that callers pass to `calculateYearlyCosts` and
  `calculateTotalYearlyCosts` is ignored by both functions, so it is not
  modelled.
- Dates are calendar days. The following are not modelled:
  - time of day and time zones;
  - JavaScript `Date`'s range limits;
  - the millisecond comparison `getTime()`.
  The model's order is the calendar order. That order matches the source's
  millisecond comparisons only when all dates share one time of day. The
  dates typed into the date inputs (`src/app/roadmap/page.tsx:122`,
  `src/components/InterventionEditModal.tsx:47,64,87,104`) are UTC midnights,
  while the built-in records (`src/app/roadmap/page.tsx:19`) are local
  midnights. In any time zone other than UTC the two differ. In London in
  summer, a roadmap start typed as 2025-08-01 is 01:00 local, so the
  demonstration record's implementation start at local midnight on 1 August
  2025 falls before year 1's window: the source charges its 120,000 in no
  year, the model in year 1. In New York, a start typed as 2025-03-13 is 20:00
  local on 12 March, so year 1 closes at 00:00 UTC on 13 March 2026, before a
  built-in date of 13 March 2026 at local midnight (04:00 UTC): the source
  leaves that date out of year 1, the model puts it in.
- Money and headcounts are exact reals. The following are not modelled:
  - IEEE-754 rounding;
  - `NaN`;
  - infinities.
  A `NaN` headcount is falsy in the source and is not represented.
- Rendering is not modelled: JSX, currency formatting, the year labels' text,
  the Gantt chart, the budget gauges and the edit modal's form handling.
- React state updates and effects are modelled as pure functions of their
  inputs. Console output, alerts and the selection page's save handler are
  not modelled.
- The roadmap page's second demonstration record is not worked through.
  Only the first one is, in `Scenarios`.
- CostTable.IntendedWindowBillsTwelveMonths: proves 12 months only for start
  days 1 to 28. From a later day, ending the window a day earlier leaves the
  thirteenth month in place only when a step clamps the loop's day to the
  closing day or below. That happens for a start on the 30th or 31st, and for
  a start on the 29th of another month when the February it crosses is a
  common one (`CostTable.IntendedWindowFromMonthEndBillsThirteen`). A start on
  29 February, or on the 29th across a leap February, still bills 12
  (`CostTable.IntendedWindowThroughLeapFebruaryBillsTwelve`). These cases are
  shown by example, not proved in general.
- CostTable.IntendedRowChargesTwelveMonths: the same restriction to start days
  1 to 28. For the starts above where the thirteenth month survives, the
  corrected row still charges 13 months.
- Selection.ToggleTwicePresent: toggling a present id twice does not restore
  the original list in general. It restores it only when the id occurred
  once, at the end. The lemma states what the code does instead.

## Findings

| source | as written | input that shows it | evidently intended | confidence | as-written member | corrected member |
|---|---|---|---|---|---|---|
| src/components/CostTable.tsx:66-68 | year `k`'s window is closed at `addYears(yearStart, 1)`, which is year `k + 1`'s first day | an intervention whose implementation starts on `addYears(startDate, 1)`: its implementation cost appears in both year 1 and year 2 (likewise for the one-time fee, and at the year 2/3 boundary), so the row and footer count it twice | the window ends the day before, as the column heading (lines 32-38) displays, so each one-off charge lands in one year | medium, not executed | CostTable.BoundaryDayChargedTwice | CostTable.IntendedOneOffChargedOnce |
| src/components/CostTable.tsx:66-67 | year `k`'s closed window runs to the same day of the month a year on, so the PEPM loop also counts that closing day's month | an ongoing window from 13 March 2025 to 2028: the loop counts 13 March 2025 to 13 March 2026, 13 months, in year 1 | the window the heading displays (13 March 2025 to 12 March 2026), which bills 12 months for start days 1 to 28; it still bills 13 when a step clamps the loop's day to the closing day or below, as from the 30th or 31st, or from the 29th across a common February (`CostTable.IntendedWindowFromMonthEndBillsThirteen`), so the fix is partial and the intent behind month counting is uncertain | low, not executed | CostTable.RowChargesThirteenMonths | CostTable.IntendedRowChargesTwelveMonths |
