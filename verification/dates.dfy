/**
  Calendar days and the date-fns arithmetic the cost engine relies on.

  A date is modelled as a whole Gregorian day and compared lexicographically
  on (year, month, day). That is the order of the underlying millisecond
  timestamps only when the dates compared share one time of day; dates typed
  into the date inputs are UTC midnights while the built-in records are local
  midnights, and the model does not tell them apart.
 */
module Dates {

  /** A calendar day; `month` runs 1..12 (JavaScript's 0-based month is shifted). */
  datatype Date = Date(year: int, month: int, day: int)

  /** Gregorian leap-year rule. */
  predicate IsLeapYear(y: int) {
    y % 4 == 0 && (y % 100 != 0 || y % 400 == 0)
  }

  function DaysInMonth(y: int, m: int): (n: int)
    requires 1 <= m <= 12
    ensures 28 <= n <= 31
    ensures n == 29 <==> m == 2 && IsLeapYear(y)
    ensures m != 2 ==> n >= 30
  {
    if m == 2 then (if IsLeapYear(y) then 29 else 28)
    else if m == 4 || m == 6 || m == 9 || m == 11 then 30
    else 31
  }

  predicate Valid(d: Date) {
    1 <= d.month <= 12 && 1 <= d.day <= DaysInMonth(d.year, d.month)
  }

  /** A day that exists in the Gregorian calendar; every Date that reaches the engine denotes one. */
  type CalendarDate = d: Date | Valid(d) witness Date(2000, 1, 1)

  /** Strict chronological order. */
  predicate Before(a: Date, b: Date) {
    || a.year < b.year
    || (a.year == b.year && a.month < b.month)
    || (a.year == b.year && a.month == b.month && a.day < b.day)
  }

  /** Chronological `<=`. */
  predicate OnOrBefore(a: Date, b: Date) {
    !Before(b, a)
  }

  /** The later of two days: `new Date(Math.max(a.getTime(), b.getTime()))`. */
  function Latest(a: CalendarDate, b: CalendarDate): (r: CalendarDate)
    ensures OnOrBefore(a, r) && OnOrBefore(b, r)
    ensures r == a || r == b
  {
    if Before(a, b) then b else a
  }

  /** Months elapsed since January of year 0; one month step adds exactly one. */
  function MonthIndex(d: Date): int {
    d.year * 12 + (d.month - 1)
  }

  lemma MonthIndexOrder(a: CalendarDate, b: CalendarDate)
    ensures MonthIndex(a) < MonthIndex(b) ==> Before(a, b)
    ensures OnOrBefore(a, b) ==> MonthIndex(a) <= MonthIndex(b)
  {
  }

  /**
    date-fns `addMonths`: move `n` calendar months and keep the day of the month,
    clamped to the length of the target month (31 January plus one month is
    28 or 29 February).
   */
  function AddMonths(d: CalendarDate, n: int): (r: CalendarDate)
    ensures MonthIndex(r) == MonthIndex(d) + n
    ensures r.day <= d.day
    ensures r.day == d.day || r.day == DaysInMonth(r.year, r.month)
  {
    var target := MonthIndex(d) + n;
    var y := target / 12;
    var m := target % 12 + 1;
    var last := DaysInMonth(y, m);
    Date(y, m, if d.day <= last then d.day else last)
  }

  /** date-fns `addYears(d, n)`, which is `addMonths(d, 12 * n)`. */
  function AddYears(d: CalendarDate, n: int): (r: CalendarDate)
    ensures r.year == d.year + n && r.month == d.month
    ensures r.day == d.day || (d.month == 2 && d.day == 29 && r.day == 28 && !IsLeapYear(r.year))
  {
    var r := AddMonths(d, 12 * n);
    assert r.year * 12 + r.month == (d.year + n) * 12 + d.month;
    r
  }

  /**
    One more year on top of `k` years is `k + 1` years, unless a 29 February
    clamped in a common year would be restored in a leap year.
   */
  lemma AddYearsTwice(d: CalendarDate, k: int)
    requires d.month == 2 && d.day == 29 ==> !IsLeapYear(d.year + k + 1)
    ensures AddYears(AddYears(d, k), 1) == AddYears(d, k + 1)
  {
    var a, b, c := AddYears(d, k), AddYears(AddYears(d, k), 1), AddYears(d, k + 1);
    assert b.year == c.year && b.month == c.month;
    if d.month == 2 && d.day == 29 {
      assert DaysInMonth(c.year, 2) == 28;
      assert c.day == 28 && b.day == 28;
    } else {
      assert a.day == d.day;
    }
  }

  /** The day before `d` (`setDate(getDate() - 1)`). */
  function PrevDay(d: CalendarDate): (r: CalendarDate)
    ensures Before(r, d)
    ensures forall x: CalendarDate :: Before(x, d) ==> OnOrBefore(x, r)
  {
    if d.day > 1 then Date(d.year, d.month, d.day - 1)
    else if d.month > 1 then Date(d.year, d.month - 1, DaysInMonth(d.year, d.month - 1))
    else Date(d.year - 1, 12, 31)
  }

  /** Moving forward by one or more months moves strictly later. */
  lemma AddMonthsAdvances(d: CalendarDate, n: int)
    ensures n >= 1 ==> Before(d, AddMonths(d, n))
    ensures n >= 0 ==> OnOrBefore(d, AddMonths(d, n))
  {
    MonthIndexOrder(d, AddMonths(d, n));
  }

  /** Adding months to the same anchor is monotone in the month count. */
  lemma AddMonthsMonotone(d: CalendarDate, m: int, n: int)
    requires m <= n
    ensures OnOrBefore(AddMonths(d, m), AddMonths(d, n))
  {
    var a, b := AddMonths(d, m), AddMonths(d, n);
    MonthIndexOrder(a, b);
    if m == n {
    } else {
      assert MonthIndex(a) < MonthIndex(b);
    }
  }

  /**
    Two successive shifts never land later than one shift by the combined
    amount: clamping in the first step can only lower the day.
   */
  lemma AddMonthsTwiceNotLater(d: CalendarDate, m: int, n: int)
    ensures OnOrBefore(AddMonths(AddMonths(d, m), n), AddMonths(d, m + n))
  {
    var twice, once := AddMonths(AddMonths(d, m), n), AddMonths(d, m + n);
    assert MonthIndex(twice) == MonthIndex(once);
    assert twice.year == once.year && twice.month == once.month by {
      assert twice.year * 12 + twice.month == once.year * 12 + once.month;
    }
  }
}
