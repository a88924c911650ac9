/** Dates, ISO weeks and resets in closed form: day numbers from the year, the month and the
    day alone, with no reference to how Calendar counts months. */
module CivilDates {
  import opened Calendar
  import opened Periods

  // Days of a common year before each month.
  const DAYS_BEFORE: seq<nat> := [0, 31, 59, 90, 120, 151, 181, 212, 243, 273, 304, 334]

  // The day number of the first of a month. After February the year's own leap day counts.
  function FirstDay(year: nat, month: nat): int
    requires year >= 1 && 1 <= month <= 12
  {
    var leapYears := if month > 2 then year else year - 1;
    365 * (year - 1) + leapYears / 4 - leapYears / 100 + leapYears / 400 + DAYS_BEFORE[month - 1] + 1
  }

  lemma OneMoreLeapDay(year: nat)
    requires year >= 1
    ensures year / 4 - year / 100 + year / 400
         == (year - 1) / 4 - (year - 1) / 100 + (year - 1) / 400 + if IsLeap(year) then 1 else 0
  {
    OneMoreMultiple(year, 4);
    OneMoreMultiple(year, 100);
    OneMoreMultiple(year, 400);
    Centuries(year);
    hide IsLeap;
  }

  lemma Centuries(year: nat)
    ensures IsLeap(year) <==> if year % 400 == 0 then true else if year % 100 == 0 then false else year % 4 == 0
    ensures year % 400 == 0 ==> year % 100 == 0
    ensures year % 100 == 0 ==> year % 4 == 0
  {
    if year % 400 == 0 {
      MultipleOf(year, 100, 4);
    }
    if year % 100 == 0 {
      MultipleOf(year, 4, 25);
    }
  }

  lemma MultipleOf(n: nat, d: nat, k: nat)
    requires d > 0 && k > 0 && n % (d * k) == 0
    ensures n % d == 0
  {
    var q := n / (d * k);
    assert n == q * (d * k) == (q * k) * d + 0;
    DivUnique(n, d, q * k, 0);
  }

  lemma OneMoreMultiple(n: nat, d: nat)
    requires n >= 1 && d >= 2
    ensures n / d == (n - 1) / d + if n % d == 0 then 1 else 0
  {
    var q, r := n / d, n % d;
    assert n == q * d + r;
    if r == 0 {
      assert n - 1 == (q - 1) * d + (d - 1);
      DivUnique(n - 1, d, q - 1, d - 1);
    } else {
      DivUnique(n - 1, d, q, r - 1);
    }
  }

  lemma NextFirst(year: nat, month: nat)
    requires year >= 1 && 1 <= month <= 12
    ensures FirstDay(if month == 12 then year + 1 else year, if month == 12 then 1 else month + 1)
         == FirstDay(year, month) + DaysInMonth(year, month)
  {
    OneMoreLeapDay(year);
  }

  /** The first of each month has that day number. */
  lemma {:induction false} MonthStartsInClosedForm(k: nat)
    requires k >= FIRST_MONTH
    ensures YearOfMonth(k) >= 1 && MonthStart(k) == FirstDay(YearOfMonth(k), MonthOfYear(k))
  {
    hide YearOfMonth, MonthOfYear, FirstDay, DaysInMonth;
    if k == FIRST_MONTH {
      FirstOfAll();
    } else {
      NextMonthOfYear(k - 1);
      MonthStartsInClosedForm(k - 1);
      NextFirst(YearOfMonth(k - 1), MonthOfYear(k - 1));
      assert MonthStart(k) == MonthStart(k - 1) + DaysInMonth(YearOfMonth(k - 1), MonthOfYear(k - 1));
      hide MonthStart;
    }
  }

  lemma FirstOfAll()
    ensures YearOfMonth(FIRST_MONTH) == 1 && MonthOfYear(FIRST_MONTH) == 1
    ensures MonthStart(FIRST_MONTH) == FirstDay(1, 1)
  {
  }

  lemma NextMonthOfYear(k: nat)
    ensures var year, month := YearOfMonth(k), MonthOfYear(k);
      && YearOfMonth(k + 1) == (if month == 12 then year + 1 else year)
      && MonthOfYear(k + 1) == (if month == 12 then 1 else month + 1)
  {
  }

  predicate IsDate(d: Date) {
    d.year >= 1 && 1 <= d.month <= 12 && 1 <= d.day <= LastDay(d.year, d.month)
  }

  // 30 days hath September, April, June and November.
  function LastDay(year: nat, month: nat): nat
    requires 1 <= month <= 12
  {
    if month == 2 then (if year % 400 == 0 || (year % 4 == 0 && year % 100 != 0) then 29 else 28)
    else [31, 28, 31, 30, 31, 30, 31, 31, 30, 31, 30, 31][month - 1]
  }

  /** Day numbers and dates are each other's inverse: every day has a date that counts to it,
      and a day that a date counts to has that date. */
  lemma DateIff(n: nat, d: Date)
    requires n >= 1
    ensures DateOf(n) == d <==> IsDate(d) && n == FirstDay(d.year, d.month) + d.day - 1
  {
    DateCounts(n);
    if IsDate(d) && n == FirstDay(d.year, d.month) + d.day - 1 {
      DateFound(n, d);
    }
  }

  lemma MonthLength(year: nat, month: nat)
    requires 1 <= month <= 12
    ensures DaysInMonth(year, month) == LastDay(year, month)
  {
    assert [31, 28, 31, 30, 31, 30, 31, 31, 30, 31, 30, 31][month - 1]
        == if month in {4, 6, 9, 11} then 30 else if month == 2 then 28 else 31;
  }

  lemma DateCounts(n: nat)
    requires n >= 1
    ensures var d := DateOf(n);
      IsDate(d) && n == FirstDay(d.year, d.month) + d.day - 1
  {
    var k := MonthOf(n);
    MonthStartsInClosedForm(k);
    MonthLength(YearOfMonth(k), MonthOfYear(k));
    hide MonthOf, FirstDay, LastDay, DaysInMonth;
    assert MonthStart(k + 1) == MonthStart(k) + DaysInMonth(YearOfMonth(k), MonthOfYear(k));
  }

  lemma DateFound(n: nat, d: Date)
    requires n >= 1 && IsDate(d) && n == FirstDay(d.year, d.month) + d.day - 1
    ensures DateOf(n) == d
  {
    var k := 12 * d.year + d.month - 1;
    assert YearOfMonth(k) == d.year && MonthOfYear(k) == d.month;
    MonthStartsInClosedForm(k);
    MonthLength(d.year, d.month);
    hide MonthOf, FirstDay, LastDay, DaysInMonth;
    assert MonthStart(k + 1) == MonthStart(k) + DaysInMonth(YearOfMonth(k), MonthOfYear(k));
    MonthIsUnique(n, k);
  }

  /** 1 January 1970 is day 719163, a Thursday. */
  lemma EpochIsThursday()
    ensures DateOf(719163) == Date(1970, 1, 1) && IsoWeekday(719163) == 4
  {
    hide FirstDay, DateOf;
    EpochDay();
    DateIff(719163, Date(1970, 1, 1));
  }

  lemma EpochDay()
    ensures FirstDay(1970, 1) == 719163
  {
  }

  // ---- ISO weeks ----

  lemma YearStartIs(y: nat)
    requires y >= 1
    ensures YearStart(y) == FirstDay(y, 1)
  {
    MonthStartsInClosedForm(12 * y);
    assert YearOfMonth(12 * y) == y && MonthOfYear(12 * y) == 1;
  }

  lemma YearFound(n: nat, y: nat)
    requires y >= 1 && n >= 1 && YearStart(y) <= n < YearStart(y + 1)
    ensures YearOf(n) == y
  {
    YearHoldsDay(n);
    hide MonthStart, MonthOf, YearOf;
    if YearOf(n) < y {
      MonthKeepsUp(12 * (YearOf(n) + 1), 12 * y);
    } else if y < YearOf(n) {
      MonthKeepsUp(12 * (y + 1), 12 * YearOf(n));
    }
  }

  /** 4 January is in week 1 of its year. */
  lemma FourthOfJanuary(y: nat, n: nat)
    requires y >= 1 && n >= 1 && DateOf(n) == Date(y, 1, 4)
    ensures IsoWeekOf(n) == IsoWeek(y, 1)
  {
    DateIff(n, Date(y, 1, 4));
    YearStartIs(y);
    YearLength(y);
    hide FirstDay, MonthStart, MonthOf, YearStart, DateOf;
    var thursday := Thursday(WeekIndex(n));
    assert n == YearStart(y) + 3 && n - 3 <= thursday <= n + 3;
    YearFound(thursday, y);
  }

  /** From one week to the next the number rises by one inside an ISO year, and falls to 1
      where the next one begins. */
  lemma WeeksCountOn(n: nat)
    requires n >= 1
    ensures var a, b := IsoWeekOf(n), IsoWeekOf(n + 7);
      (b.year == a.year && b.week == a.week + 1) || (b.year == a.year + 1 && b.week == 1)
  {
    hide MonthStart, MonthOf, YearOf, YearStart, DayOfYear;
    var thursday := Thursday(WeekIndex(n));
    assert Thursday(WeekIndex(n + 7)) == thursday + 7;
    hide WeekIndex, Thursday;
    SevenDaysOn(thursday);
  }

  lemma SevenDaysOn(n: nat)
    requires n >= 1
    ensures var week, later := (DayOfYear(n) - 1) / 7 + 1, (DayOfYear(n + 7) - 1) / 7 + 1;
      || (YearOf(n + 7) == YearOf(n) && later == week + 1)
      || (YearOf(n + 7) == YearOf(n) + 1 && later == 1)
  {
    hide MonthStart, MonthOf, YearOf, YearStart, DayOfYear;
    var y := YearOf(n);
    YearHoldsDay(n);
    if n + 7 < YearStart(y + 1) {
      YearFound(n + 7, y);
      SameYear(n, n + 7);
    } else {
      YearLength(y + 1);
      YearFound(n + 7, y + 1);
      DaysInto(n + 7);
    }
  }

  lemma SameYear(n: nat, p: nat)
    requires n >= 1 && p == n + 7 && YearOf(n) == YearOf(p)
    ensures (DayOfYear(p) - 1) / 7 == (DayOfYear(n) - 1) / 7 + 1
  {
    hide YearOf, YearStart;
  }

  lemma DaysInto(n: nat)
    requires n >= 1 && n < YearStart(YearOf(n)) + 7
    ensures (DayOfYear(n) - 1) / 7 == 0
  {
    YearHoldsDay(n);
    hide YearOf, YearStart;
  }

  // ---- Resets and ids by date ----

  // The first of the month after this date's.
  function FirstOfNext(d: Date): Date {
    if d.month == 12 then Date(d.year + 1, 1, 1) else Date(d.year, d.month + 1, 1)
  }

  lemma FirstIsDate(year: nat, month: nat)
    requires year >= 1 && 1 <= month <= 12
    ensures IsDate(Date(year, month, 1))
  {
  }

  lemma NumberOfMonth(year: nat, month: nat)
    requires year >= 1 && 1 <= month <= 12
    ensures YearOfMonth(12 * year + month - 1) == year && MonthOfYear(12 * year + month - 1) == month
  {
  }

  lemma DateOfFirst(year: nat, month: nat)
    requires year >= 1 && 1 <= month <= 12
    ensures FirstOfMonth(year, month) >= 1 && DateOf(FirstOfMonth(year, month)) == Date(year, month, 1)
  {
    hide FirstDay, MonthStart, DateOf, IsDate, LastDay, YearOfMonth, MonthOfYear;
    NumberOfMonth(year, month);
    MonthStartsInClosedForm(12 * year + month - 1);
    FirstIsDate(year, month);
    DateIff(FirstOfMonth(year, month), Date(year, month, 1));
  }

  /** The daily id is the date itself, the monthly id its year and month; the monthly reset
      is midnight of the first of the next month. */
  lemma MonthsByDate(m: Moment)
    requires Valid(m)
    ensures var d, reset := DateOf(m.day), ResetAt(Month, m);
      && PeriodId(Day, m) == DayId(d) && PeriodId(Month, m) == MonthId(d.year, d.month)
      && reset.day >= 1 && DateOf(reset.day) == FirstOfNext(d) && reset.micros == 0
  {
    hide DateOf, FirstOfMonth;
    var next := FirstOfNext(DateOf(m.day));
    DateOfFirst(next.year, next.month);
  }

  /** The daily reset is midnight of the next day, the weekly one midnight of the next
      Monday, no more than a week away. */
  lemma WeeksByDate(m: Moment)
    requires Valid(m)
    ensures ResetAt(Day, m) == Moment(m.day + 1, 0)
    ensures var reset := ResetAt(Week, m);
      m.day < reset.day <= m.day + 7 && (reset.day - 1) % 7 == 0 && reset.micros == 0
  {
  }
}
