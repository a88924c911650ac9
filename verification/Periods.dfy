/** Spend windows: their period ids, the id of the period before, and the reset. */
module Periods {
  import opened Basics
  import opened Calendar

  // An instant in UTC: a day number and the microseconds into that day.
  datatype Moment = Moment(day: nat, micros: nat)

  const DAY_MICROS: nat := 86400 * 1000000

  predicate Valid(m: Moment) {
    m.day >= 1 && m.micros < DAY_MICROS
  }

  predicate Before(a: Moment, b: Moment) {
    a.day < b.day || (a.day == b.day && a.micros < b.micros)
  }

  // Microseconds since the epoch, 1 January 1970.
  function SinceEpoch(m: Moment): int {
    (m.day - 719163) * 86400000000 + m.micros
  }

  /** Moments are the instants of the calendar in order: each is one number of microseconds,
      and each such number from its first day on is one moment. */
  lemma MomentsAreInstants(a: Moment, b: Moment, micros: int) returns (m: Moment)
    requires Valid(a) && Valid(b) && micros >= SinceEpoch(Moment(1, 0))
    ensures Before(a, b) <==> SinceEpoch(a) < SinceEpoch(b)
    ensures Valid(m) && SinceEpoch(m) == micros
  {
    var days := micros / 86400000000;
    m := Moment(days + 719163, micros % 86400000000);
  }

  datatype CalendarSpan = Day | Week | Month

  datatype Id = DayId(date: Date) | WeekId(week: IsoWeek) | MonthId(year: nat, month: nat)

  function PeriodId(span: CalendarSpan, m: Moment): Id
    requires Valid(m)
  {
    match span
    case Day => DayId(DateOf(m.day))
    case Week => WeekId(IsoWeekOf(m.day))
    case Month => MonthId(DateOf(m.day).year, DateOf(m.day).month)
  }

  // The periods of a span, numbered through.
  function Index(span: CalendarSpan, m: Moment): nat
    requires Valid(m)
  {
    match span
    case Day => m.day
    case Week => WeekIndex(m.day)
    case Month => MonthOf(m.day)
  }

  /** Ids cut time into consecutive intervals: two instants share an id exactly when they
      share a period number, numbers never go back, and from one day to the next they
      rise by at most one. */
  lemma IdsAreIntervals(span: CalendarSpan, a: Moment, b: Moment)
    requires Valid(a) && Valid(b)
    ensures PeriodId(span, a) == PeriodId(span, b) <==> Index(span, a) == Index(span, b)
    ensures Before(a, b) ==> Index(span, a) <= Index(span, b)
    ensures b.day == a.day + 1 ==> Index(span, b) <= Index(span, a) + 1
  {
    match span
    case Day =>
      if PeriodId(span, a) == PeriodId(span, b) {
        DatesAreUnique(a.day, b.day);
      }
    case Week =>
      IsoWeeksAreWeeks(a.day, b.day);
    case Month =>
      if PeriodId(span, a) == PeriodId(span, b) {
        SameMonth(MonthOf(a.day), MonthOf(b.day));
      }
      hide MonthOf;
      if a.day <= b.day {
        MonthsDoNotGoBack(a.day, b.day);
      }
      if b.day == a.day + 1 {
        NextDayNextMonth(a.day);
      }
  }

  lemma NextDayNextMonth(n: nat)
    requires n >= 1
    ensures MonthOf(n + 1) <= MonthOf(n) + 1
  {
    if MonthOf(n + 1) > MonthOf(n) + 1 {
      MonthStartsIncrease(MonthOf(n) + 1, MonthOf(n) + 2);
      MonthKeepsUp(MonthOf(n) + 2, MonthOf(n + 1));
    }
  }

  // previous_period_id, by civil date arithmetic. It fails where that leaves the calendar,
  // which begins with year 1.
  function PreviousPeriodId(span: CalendarSpan, m: Moment): Option<Id>
    requires Valid(m)
  {
    match span
    case Day => if m.day == 1 then None else Some(DayId(DateOf(m.day - 1)))
    case Week =>
      var monday := m.day - (IsoWeekday(m.day) - 1);
      if monday - 7 < 1 then None else Some(WeekId(IsoWeekOf(monday - 7)))
    case Month =>
      var d := DateOf(m.day);
      if d.month > 1 then Some(MonthId(d.year, d.month - 1))
      else if d.year == 1 then None
      else Some(MonthId(d.year - 1, 12))
  }

  /** previous_period_id names exactly the period before: it is the id of an instant b if
      and only if b lies in the period numbered one less. It fails exactly in the first
      period of the calendar, which has none before it. */
  lemma PreviousIsTheOneBefore(span: CalendarSpan, m: Moment, b: Moment)
    requires Valid(m) && Valid(b)
    ensures PreviousPeriodId(span, m) == Some(PeriodId(span, b)) <==> Index(span, b) == Index(span, m) - 1
    ensures PreviousPeriodId(span, m) == None <==> Index(span, m) == Index(span, Moment(1, 0))
  {
    hide PeriodId, PreviousPeriodId, MonthOf;
    match span
    case Day => PreviousDayOnly(m, b);
    case Week => PreviousWeekOnly(m, b);
    case Month => PreviousMonthOnly(m, b);
  }

  lemma PreviousDayOnly(m: Moment, b: Moment)
    requires Valid(m) && Valid(b)
    ensures PreviousPeriodId(Day, m) == Some(PeriodId(Day, b)) <==> b.day == m.day - 1
    ensures PreviousPeriodId(Day, m) == None <==> m.day == 1
  {
    hide DateOf;
    if m.day > 1 && DateOf(b.day) == DateOf(m.day - 1) {
      DatesAreUnique(b.day, m.day - 1);
    }
  }

  lemma PreviousWeekOnly(m: Moment, b: Moment)
    requires Valid(m) && Valid(b)
    ensures PreviousPeriodId(Week, m) == Some(PeriodId(Week, b)) <==> WeekIndex(b.day) == WeekIndex(m.day) - 1
    ensures PreviousPeriodId(Week, m) == None <==> WeekIndex(m.day) == 0
  {
    hide IsoWeekOf;
    PreviousWeek(m);
    if m.day > 7 {
      IsoWeeksAreWeeks(b.day, m.day - (IsoWeekday(m.day) - 1) - 7);
    }
  }

  lemma PreviousMonthOnly(m: Moment, b: Moment)
    requires Valid(m) && Valid(b)
    ensures PreviousPeriodId(Month, m) == Some(PeriodId(Month, b)) <==> MonthOf(b.day) == MonthOf(m.day) - 1
    ensures PreviousPeriodId(Month, m) == None <==> MonthOf(m.day) == MonthOf(1)
  {
    FirstDayFirstMonth();
    hide MonthOf, PreviousPeriodId;
    PreviousMonth(m, MonthOf(m.day));
    if PreviousPeriodId(Month, m) == Some(PeriodId(Month, b)) {
      SameMonth(MonthOf(b.day), MonthOf(m.day) - 1);
    }
  }

  lemma PreviousWeek(m: Moment)
    requires Valid(m)
    ensures var monday := m.day - (IsoWeekday(m.day) - 1);
      && monday >= 1 && (monday > 7 <==> m.day > 7) && (m.day > 7 <==> WeekIndex(m.day) > 0)
      && (monday > 7 ==> WeekIndex(monday - 7) == WeekIndex(m.day) - 1)
  {
  }

  lemma PreviousMonth(m: Moment, k: nat)
    requires Valid(m) && k == MonthOf(m.day) && k >= FIRST_MONTH
    ensures PreviousPeriodId(Month, m) ==
            if k == FIRST_MONTH then None else Some(MonthId(YearOfMonth(k - 1), MonthOfYear(k - 1)))
  {
    hide MonthOf;
  }

  lemma FirstDayFirstMonth()
    ensures MonthOf(1) == FIRST_MONTH
  {
    MonthIsUnique(1, FIRST_MONTH);
  }

  // reset_at: midnight of the first day of the next period.
  function ResetAt(span: CalendarSpan, m: Moment): Moment
    requires Valid(m)
  {
    match span
    case Day => Moment(m.day + 1, 0)
    case Week =>
      var days := (8 - IsoWeekday(m.day)) % 7;
      Moment(m.day + (if days == 0 then 7 else days), 0)
    case Month =>
      var d := DateOf(m.day);
      var (year, month) := if d.month == 12 then (d.year + 1, 1) else (d.year, d.month + 1);
      Moment(FirstOfMonth(year, month), 0)
  }

  // replace(year=…, month=…, day=1)
  function FirstOfMonth(year: nat, month: nat): nat
    requires year >= 1 && 1 <= month <= 12
  {
    MonthStart(12 * year + month - 1)
  }

  lemma ResetOpensNext(span: CalendarSpan, m: Moment)
    requires Valid(m)
    ensures Valid(ResetAt(span, m)) && Before(m, ResetAt(span, m))
    ensures Index(span, ResetAt(span, m)) == Index(span, m) + 1
  {
    if span.Month? {
      MonthReset(m);
      var k := MonthOf(m.day);
      MonthStartsIncrease(k + 1, k + 2);
      MonthIsUnique(MonthStart(k + 1), k + 1);
      hide MonthStart, MonthOf, ResetAt;
    }
  }

  lemma MonthReset(m: Moment)
    requires Valid(m)
    ensures ResetAt(Month, m) == Moment(MonthStart(MonthOf(m.day) + 1), 0)
  {
    hide MonthStart, MonthOf;
    var k, d := MonthOf(m.day), DateOf(m.day);
    assert k == 12 * d.year + d.month - 1;
  }

  lemma BeforeResetIsSame(span: CalendarSpan, m: Moment, b: Moment)
    requires Valid(m) && Valid(b) && !Before(b, m) && Before(b, ResetAt(span, m))
    ensures Index(span, b) == Index(span, m)
  {
    if span.Month? {
      MonthReset(m);
      hide MonthStart, MonthOf, ResetAt;
      MonthIsUnique(b.day, MonthOf(m.day));
    }
  }

  /** The reset is the first instant with another id: it opens the next period, and every
      instant before it that does not precede m has m's id. */
  lemma ResetIsFirstOfNext(span: CalendarSpan, m: Moment)
    requires Valid(m)
    ensures Valid(ResetAt(span, m)) && Before(m, ResetAt(span, m))
    ensures Index(span, ResetAt(span, m)) == Index(span, m) + 1
    ensures PeriodId(span, ResetAt(span, m)) != PeriodId(span, m)
    ensures forall b :: Valid(b) && !Before(b, m) && Before(b, ResetAt(span, m)) ==>
              PeriodId(span, b) == PeriodId(span, m)
  {
    ResetOpensNext(span, m);
    IdsAreIntervals(span, m, ResetAt(span, m));
    forall b | Valid(b) && !Before(b, m) && Before(b, ResetAt(span, m))
      ensures PeriodId(span, b) == PeriodId(span, m)
    {
      BeforeResetIsSame(span, m, b);
      IdsAreIntervals(span, m, b);
    }
  }

  // ---- Rolling spans: N days or N hours since the epoch ----

  const SECOND: int := 1000000

  // int(x): towards zero.
  function Trunc(micros: int): int {
    if micros >= 0 then micros / SECOND else -((-micros) / SECOND)
  }

  datatype Rolling = Rolling(amount: nat, unit: nat)   // unit: 86400 or 3600 seconds

  predicate IsRolling(r: Rolling) {
    r.unit == 86400 || r.unit == 3600
  }

  // The bucket in the id, for microseconds since the epoch; `//` rounds down.
  function Bucket(r: Rolling, micros: int): int
    requires IsRolling(r)
  {
    (Trunc(micros) / r.unit) / (if r.amount < 1 then 1 else r.amount)
  }

  function Length(r: Rolling): int {
    r.amount * r.unit
  }

  function PreviousBucket(r: Rolling, micros: int): int
    requires IsRolling(r)
  {
    Bucket(r, micros - Length(r) * SECOND)
  }

  /** The bucket is the number of whole lengths since the epoch, by the instant's second; a
      length of nothing counts as one day or hour. */
  lemma BucketCountsLengths(r: Rolling, micros: int)
    requires IsRolling(r)
    ensures var n, second := if r.amount == 0 then 1 else r.amount, Trunc(micros);
      && Bucket(r, micros) * (n * r.unit) <= second < (Bucket(r, micros) + 1) * (n * r.unit)
      && (micros >= 0 ==> second * 1000000 <= micros < (second + 1) * 1000000)
      && (micros <= 0 ==> (second - 1) * 1000000 < micros <= second * 1000000)
  {
    var n, second := if r.amount == 0 then 1 else r.amount, Trunc(micros);
    var days := second / r.unit;
    DivBounds(second, r.unit);
    DivBounds(days, n);
    var b := days / n;
    Times(b * n, days, r.unit);
    Times(days + 1, (b + 1) * n, r.unit);
    assert b * n * r.unit == b * (n * r.unit) && (b + 1) * n * r.unit == (b + 1) * (n * r.unit);
  }

  lemma DivBounds(x: int, d: int)
    requires d > 0
    ensures x / d * d <= x < (x / d + 1) * d
  {
  }

  lemma Times(x: int, y: int, d: int)
    requires x <= y && d > 0
    ensures x * d <= y * d
  {
  }

  lemma DropMultiple(x: int, n: int, d: int)
    requires d > 0
    ensures (x - n * d) / d == x / d - n
  {
    var q, r := x / d, x % d;
    assert x == q * d + r;
    assert x - n * d == (q - n) * d + r;
    DivUnique(x - n * d, d, q - n, r);
  }

  // Two multiples of d differ by at least d.
  lemma {:induction false} Gap(p: int, q: int, d: int)
    requires d > 0 && p < q
    ensures p * d + d <= q * d
    decreases q - p
  {
    OneLess(q, d);
    if p < q - 1 {
      Gap(p, q - 1, d);
    }
  }

  lemma OneLess(q: int, d: int)
    ensures q * d == (q - 1) * d + d
  {
  }

  lemma DivUnique(x: int, d: int, q: int, r: int)
    requires d > 0 && 0 <= r < d && x == q * d + r
    ensures x / d == q
  {
    var p, t := x / d, x % d;
    assert x == p * d + t;
    if p < q {
      Gap(p, q, d);
    }
    if q < p {
      Gap(q, p, d);
    }
  }

  lemma BucketOneDown(r: Rolling, seconds: int)
    requires IsRolling(r) && r.amount >= 1
    ensures ((seconds - Length(r)) / r.unit) / r.amount == (seconds / r.unit) / r.amount - 1
  {
    DropMultiple(seconds, r.amount, r.unit);
    DropMultiple(seconds / r.unit, 1, r.amount);
  }

  lemma TruncMinus(micros: int, k: int)
    requires k >= 0
    ensures micros < 0 || micros >= k * SECOND || micros % SECOND == 0 ==>
              Trunc(micros - k * SECOND) == Trunc(micros) - k
    ensures 0 <= micros < k * SECOND && micros % SECOND != 0 ==>
              Trunc(micros - k * SECOND) == Trunc(micros) - k + 1
  {
  }

  /** previous_period_id of a rolling span is the bucket before, except for a length of
      nothing, and in the last, fractional second of the first bucket after the epoch, where
      truncation towards zero brings the earlier instant back into the same bucket. */
  lemma PreviousBucketIsOneBefore(r: Rolling, micros: int)
    requires IsRolling(r)
    ensures PreviousBucket(r, micros) == Bucket(r, micros) - 1 <==>
            r.amount >= 1 && !(Trunc(micros) == Length(r) - 1 && micros % SECOND != 0)
  {
    if r.amount >= 1 {
      PreviousOfSome(r, micros);
    }
  }

  lemma PreviousOfSome(r: Rolling, micros: int)
    requires IsRolling(r) && r.amount >= 1
    ensures PreviousBucket(r, micros) == Bucket(r, micros) - 1 <==>
            !(Trunc(micros) == Length(r) - 1 && micros % SECOND != 0)
  {
    var k := Length(r);
    TruncMinus(micros, k);
    BucketOneDown(r, Trunc(micros));
    if 0 <= micros < k * SECOND && micros % SECOND != 0 {
      BucketOneDown(r, Trunc(micros) + 1);
      FirstBucket(r, Trunc(micros));
      if Trunc(micros) + 1 < k {
        FirstBucket(r, Trunc(micros) + 1);
      } else {
        FirstBucket(r, 0);
        BucketOneDown(r, k);
      }
    }
  }

  lemma FirstBucket(r: Rolling, seconds: int)
    requires IsRolling(r) && r.amount >= 1 && 0 <= seconds < Length(r)
    ensures (seconds / r.unit) / r.amount == 0
  {
    var q := seconds / r.unit;
    DropMultiple(seconds, r.amount, r.unit);
    DivUnique(q, r.amount, 0, q);
  }

  /** Buckets never go back, and rise by at most one from a second to the next. */
  lemma BucketsAreIntervals(r: Rolling, a: int, b: int)
    requires IsRolling(r) && r.amount >= 1 && a <= b
    ensures Bucket(r, a) <= Bucket(r, b)
    ensures b == a + SECOND ==> Bucket(r, b) <= Bucket(r, a) + 1
  {
    TruncGrows(a, b);
    DivMonotone(Trunc(a), Trunc(b), r.unit);
    DivMonotone(Trunc(a) / r.unit, Trunc(b) / r.unit, r.amount);
    if b == a + SECOND {
      DivRisesByOne(Trunc(a), Trunc(b), r.unit);
      DivRisesByOne(Trunc(a) / r.unit, Trunc(b) / r.unit, r.amount);
    }
  }

  lemma TruncGrows(a: int, b: int)
    requires a <= b
    ensures Trunc(a) <= Trunc(b)
    ensures b == a + SECOND ==> Trunc(b) <= Trunc(a) + 1
  {
  }

  lemma DivRisesByOne(x: int, y: int, d: int)
    requires d > 0 && y <= x + 1
    ensures y / d <= x / d + 1
  {
    DropMultiple(x + d, 1, d);
    DivMonotone(y, x + d, d);
  }

  lemma DivMonotone(x: int, y: int, d: int)
    requires d > 0 && x <= y
    ensures x / d <= y / d
  {
    var p, q := x / d, y / d;
    assert x == p * d + x % d && y == q * d + y % d;
    if q < p {
      Gap(q, p, d);
    }
  }

  /** A rolling reset, one length after the instant asked about, falls in the next bucket,
      for all instants but those of the last second before the epoch; a length of nothing
      has no next. */
  lemma RollingResetIsInNext(r: Rolling, micros: int)
    requires IsRolling(r)
    ensures Bucket(r, micros + Length(r) * SECOND) == Bucket(r, micros) + 1 <==>
            r.amount >= 1 && !(-SECOND < micros < 0)
  {
    if r.amount >= 1 {
      var reset := micros + Length(r) * SECOND;
      PreviousOfSome(r, reset);
      assert PreviousBucket(r, reset) == Bucket(r, micros);
      assert Length(r) >= 3600;
      LastFraction(micros, Length(r));
    }
  }

  lemma LastFraction(micros: int, k: int)
    requires k >= 2
    ensures Trunc(micros + k * SECOND) == k - 1 && (micros + k * SECOND) % SECOND != 0 <==> -SECOND < micros < 0
  {
  }

  /** It opens that bucket exactly for an instant that opens its own: the microsecond before
      the reset is in the old bucket if and only if the one before the instant is not. */
  lemma RollingResetOpensNextIffAligned(r: Rolling, micros: nat)
    requires IsRolling(r) && r.amount >= 1
    ensures var reset := micros + Length(r) * SECOND;
      && Bucket(r, reset) == Bucket(r, micros) + 1
      && (Bucket(r, reset - 1) == Bucket(r, micros) <==> micros == 0 || Bucket(r, micros - 1) != Bucket(r, micros))
  {
    RollingResetIsInNext(r, micros);
    if micros == 0 {
      FirstBucket(r, Length(r) - 1);
      FirstBucket(r, 0);
      LastBeforeReset(Length(r));
    } else {
      RollingResetIsInNext(r, micros - 1);
      BucketsAreIntervals(r, micros - 1, micros);
      BucketsRiseByOne(r, micros - 1, micros);
    }
  }

  lemma LastBeforeReset(k: int)
    requires k >= 1
    ensures Trunc(k * SECOND - 1) == k - 1 && Trunc(0) == 0
  {
  }

  lemma BucketsRiseByOne(r: Rolling, a: int, b: int)
    requires IsRolling(r) && r.amount >= 1 && a <= b <= a + SECOND
    ensures Bucket(r, a) <= Bucket(r, b) <= Bucket(r, a) + 1
  {
    BucketsAreIntervals(r, a, b);
    BucketsAreIntervals(r, b, a + SECOND);
    BucketsAreIntervals(r, a, a + SECOND);
  }
}
