/**
 * The business-day counter of DIAN_VA/utils/logic.py and app.py.
 *
 * A date is a proleptic Gregorian day number, as Python's date.toordinal()
 * gives it (0001-01-01 is day 1), and its weekday is date.weekday()
 * (Monday = 0 ... Sunday = 6). The program starts on 2025-09-16, a Tuesday.
 */
module Calendar {

  /** date(2025, 9, 16).toordinal() */
  const START_DATE: int := 739510

  function Weekday(d: int): (w: int)
    ensures 0 <= w < 7
  {
    (d + 6) % 7
  }

  /** Monday to Friday, with no holidays, as pandas' bdate_range counts them. */
  predicate IsBusinessDay(d: int) {
    Weekday(d) < 5
  }

  /** Reference definition: the business days in [lo, hi], counted one day at a time. */
  function CountBusinessDays(lo: int, hi: int): nat
    decreases hi - lo
  {
    if hi < lo then 0
    else CountBusinessDays(lo, hi - 1) + (if IsBusinessDay(hi) then 1 else 0)
  }

  function Min(a: int, b: int): int {
    if a <= b then a else b
  }

  lemma StartIsTuesday()
    ensures Weekday(START_DATE) == 1
  {
  }

  /**
   * The n-th day of the program (counting from 0) falls on weekday (n + 1) % 7,
   * so of every 7 consecutive days from the start, the first four and the last are business days.
   */
  lemma DayOfProgram(n: nat)
    ensures IsBusinessDay(START_DATE + n) <==> (n % 7 < 4 || n % 7 == 6)
  {
    var q, r := n / 7, n % 7;
    assert n == 7 * q + r;
    assert START_DATE + n + 6 == 7 * (105645 + q) + (r + 1);
    if r == 6 {
      assert START_DATE + n + 6 == 7 * (105645 + q + 1);
      assert Weekday(START_DATE + n) == 0;
    } else {
      assert Weekday(START_DATE + n) == r + 1;
    }
  }

  /** Five business days per whole week, then up to four more in the partial week that starts on a Tuesday. */
  lemma {:induction false} ClosedForm(n: nat)
    ensures CountBusinessDays(START_DATE, START_DATE + n - 1) == 5 * (n / 7) + Min(n % 7, 4)
  {
    if n > 0 {
      ClosedForm(n - 1);
      DayOfProgram(n - 1);
      var q, r := (n - 1) / 7, (n - 1) % 7;
      assert n - 1 == 7 * q + r;
      if r == 6 {
        assert n / 7 == q + 1 && n % 7 == 0;
      } else {
        assert n / 7 == q && n % 7 == r + 1;
      }
    }
  }

  /**
   * business_days_since_start: 0 for a date before the start, otherwise the
   * number of Monday-to-Friday dates from the start to end_date inclusive.
   */
  function BusinessDaysSinceStart(endDate: int): (r: nat)
    ensures r == CountBusinessDays(START_DATE, endDate)
  {
    if endDate < START_DATE then 0
    else
      var n := endDate - START_DATE + 1;
      ClosedForm(n);
      5 * (n / 7) + Min(n % 7, 4)
  }

  lemma BusinessDaysBeforeStart(endDate: int)
    requires endDate < START_DATE
    ensures BusinessDaysSinceStart(endDate) == 0
  {
  }

  lemma {:induction false} CountMonotone(lo: int, a: int, b: int)
    requires a <= b
    ensures CountBusinessDays(lo, a) <= CountBusinessDays(lo, b)
    decreases b - a
  {
    if a < b {
      CountMonotone(lo, a, b - 1);
    }
  }

  /** A later end date never counts fewer business days. */
  lemma BusinessDaysMonotone(a: int, b: int)
    requires a <= b
    ensures BusinessDaysSinceStart(a) <= BusinessDaysSinceStart(b)
  {
    CountMonotone(START_DATE, a, b);
  }

  /** The start date is itself a business day, so from the start on the count is at least 1. */
  lemma BusinessDaysFromStart(endDate: int)
    requires START_DATE <= endDate
    ensures BusinessDaysSinceStart(endDate) >= 1
  {
    DayOfProgram(0);
    CountMonotone(START_DATE, START_DATE, endDate);
  }

  /** Each additional day adds one exactly when it is a business day. */
  lemma BusinessDaysStep(endDate: int)
    requires START_DATE <= endDate
    ensures BusinessDaysSinceStart(endDate) == BusinessDaysSinceStart(endDate - 1) + (if IsBusinessDay(endDate) then 1 else 0)
  {
  }
}
