/** The proleptic Gregorian calendar by day number: day 1 is Monday, 1 January of year 1. */
module Calendar {

  predicate IsLeap(y: nat) {
    y % 4 == 0 && (y % 100 != 0 || y % 400 == 0)
  }

  function DaysInMonth(y: nat, m: nat): (d: nat)
    requires 1 <= m <= 12
    ensures 28 <= d <= 31
  {
    if m == 2 then (if IsLeap(y) then 29 else 28)
    else if m in {4, 6, 9, 11} then 30
    else 31
  }

  // Months are numbered through: month k is month k % 12 + 1 of year k / 12.
  function YearOfMonth(k: nat): nat {
    k / 12
  }

  function MonthOfYear(k: nat): (m: nat)
    ensures 1 <= m <= 12
  {
    k % 12 + 1
  }

  const FIRST_MONTH: nat := 12    // January of year 1

  // The day number of the first of month k.
  function MonthStart(k: nat): (n: nat)
    requires k >= FIRST_MONTH
    ensures n >= 1
  {
    if k == FIRST_MONTH then 1
    else MonthStart(k - 1) + DaysInMonth(YearOfMonth(k - 1), MonthOfYear(k - 1))
  }

  lemma {:induction false} MonthStartsIncrease(j: nat, k: nat)
    requires FIRST_MONTH <= j < k
    ensures MonthStart(j) + 28 <= MonthStart(k)
    decreases k
  {
    if j < k - 1 {
      MonthStartsIncrease(j, k - 1);
    }
  }

  // The month a day is in.
  function MonthOf(n: nat): (k: nat)
    requires n >= 1
    ensures k >= FIRST_MONTH && MonthStart(k) <= n < MonthStart(k + 1)
  {
    MonthFrom(FIRST_MONTH, n)
  }

  function MonthFrom(k: nat, n: nat): (r: nat)
    requires k >= FIRST_MONTH && MonthStart(k) <= n
    ensures r >= FIRST_MONTH && MonthStart(r) <= n < MonthStart(r + 1)
    decreases n - MonthStart(k)
  {
    if n < MonthStart(k + 1) then k else MonthFrom(k + 1, n)
  }

  lemma MonthIsUnique(n: nat, k: nat)
    requires k >= FIRST_MONTH && MonthStart(k) <= n < MonthStart(k + 1)
    ensures MonthOf(n) == k
  {
    var r := MonthOf(n);
    if r < k {
      MonthKeepsUp(r + 1, k);
    } else if k < r {
      MonthKeepsUp(k + 1, r);
    }
  }

  lemma MonthKeepsUp(j: nat, k: nat)
    requires FIRST_MONTH <= j <= k
    ensures MonthStart(j) <= MonthStart(k)
  {
    if j < k {
      MonthStartsIncrease(j, k);
    }
  }

  lemma MonthsDoNotGoBack(n: nat, p: nat)
    requires 1 <= n <= p
    ensures MonthOf(n) <= MonthOf(p)
  {
    if MonthOf(p) < MonthOf(n) {
      MonthKeepsUp(MonthOf(p) + 1, MonthOf(n));
    }
  }

  // ---- Dates ----

  datatype Date = Date(year: nat, month: nat, day: nat)

  function DateOf(n: nat): (d: Date)
    requires n >= 1
    ensures d.year >= 1 && 1 <= d.month <= 12
  {
    var k := MonthOf(n);
    Date(YearOfMonth(k), MonthOfYear(k), n - MonthStart(k) + 1)
  }

  lemma SameMonth(j: nat, k: nat)
    requires YearOfMonth(j) == YearOfMonth(k) && MonthOfYear(j) == MonthOfYear(k)
    ensures j == k
  {
  }

  /** A date names one day. */
  lemma DatesAreUnique(n: nat, p: nat)
    requires n >= 1 && p >= 1 && DateOf(n) == DateOf(p)
    ensures n == p
  {
    SameMonth(MonthOf(n), MonthOf(p));
  }

  // ---- Years and ISO weeks ----

  function YearStart(y: nat): nat
    requires y >= 1
  {
    MonthStart(12 * y)
  }

  function YearOf(n: nat): nat
    requires n >= 1
  {
    YearOfMonth(MonthOf(n))
  }

  lemma YearHoldsDay(n: nat)
    requires n >= 1
    ensures YearOf(n) >= 1 && YearStart(YearOf(n)) <= n < YearStart(YearOf(n) + 1)
  {
    hide MonthOf, MonthStart;
    var k := MonthOf(n);
    MonthKeepsUp(12 * (k / 12), k);
    MonthKeepsUp(k + 1, 12 * (k / 12 + 1));
  }

  function DayOfYear(n: nat): int
    requires n >= 1
  {
    n - YearStart(YearOf(n)) + 1
  }

  // 1 for Monday to 7 for Sunday.
  function IsoWeekday(n: nat): nat
    requires n >= 1
  {
    (n - 1) % 7 + 1
  }

  // Weeks run from Monday; day 1 is in week 0.
  function WeekIndex(n: nat): nat
    requires n >= 1
  {
    (n - 1) / 7
  }

  function Thursday(week: nat): nat {
    7 * week + 4
  }

  datatype IsoWeek = IsoWeek(year: nat, week: int)

  // A week belongs to the year of its Thursday, and is numbered by it.
  function IsoWeekOf(n: nat): IsoWeek
    requires n >= 1
  {
    var thursday := Thursday(WeekIndex(n));
    IsoWeek(YearOf(thursday), (DayOfYear(thursday) - 1) / 7 + 1)
  }

  /** Two days have the same ISO week exactly when the same Monday starts their week. */
  lemma IsoWeeksAreWeeks(n: nat, p: nat)
    requires n >= 1 && p >= 1
    ensures IsoWeekOf(n) == IsoWeekOf(p) <==> WeekIndex(n) == WeekIndex(p)
  {
    if IsoWeekOf(n) == IsoWeekOf(p) {
      SameSeventh(WeekIndex(n), WeekIndex(p), YearStart(YearOf(Thursday(WeekIndex(n)))));
    }
  }

  lemma SameSeventh(a: int, b: int, start: int)
    requires (7 * a + 4 - start + 1 - 1) / 7 == (7 * b + 4 - start + 1 - 1) / 7
    ensures a == b
  {
  }

  /** ISO weeks are numbered from 1 to 53. */
  lemma IsoWeekNumbers(n: nat)
    requires n >= 1
    ensures 1 <= IsoWeekOf(n).week <= 53
  {
    hide MonthOf, MonthStart, YearStart;
    var thursday := Thursday(WeekIndex(n));
    YearHoldsDay(thursday);
    YearLength(YearOf(thursday));
  }

  lemma MonthRun(y: nat, i: nat)
    requires y >= 1 && 1 <= i <= 12
    ensures MonthStart(12 * y + i) == MonthStart(12 * y + i - 1) + DaysInMonth(y, i)
  {
    var k := 12 * y + i - 1;
    assert k / 12 == y && k % 12 == i - 1;
  }

  lemma TwelveMonths(starts: seq<int>, y: nat)
    requires |starts| == 13
    requires forall i :: 1 <= i <= 12 ==> starts[i] == starts[i - 1] + DaysInMonth(y, i)
    ensures starts[12] - starts[0] == if IsLeap(y) then 366 else 365
  {
    assert starts[3] == starts[2] + 31 && starts[2] == starts[1] + DaysInMonth(y, 2) && starts[1] == starts[0] + 31;
    assert starts[6] == starts[5] + 30 && starts[5] == starts[4] + 31 && starts[4] == starts[3] + 30;
    assert starts[9] == starts[8] + 30 && starts[8] == starts[7] + 31 && starts[7] == starts[6] + 31;
    assert starts[12] == starts[11] + 31 && starts[11] == starts[10] + 30 && starts[10] == starts[9] + 31;
  }

  /** A year has 365 days, a leap year 366. */
  lemma YearLength(y: nat)
    requires y >= 1
    ensures YearStart(y + 1) - YearStart(y) == if IsLeap(y) then 366 else 365
  {
    hide MonthStart;
    var starts := seq(13, i requires 0 <= i < 13 => MonthStart(12 * y + i) as int);
    forall i | 1 <= i <= 12 ensures starts[i] == starts[i - 1] + DaysInMonth(y, i) {
      MonthRun(y, i);
    }
    assert starts[0] == MonthStart(12 * y) && starts[12] == MonthStart(12 * (y + 1));
    TwelveMonths(starts, y);
  }
}
