/** The proleptic Gregorian calendar of Python's `datetime`, in one fixed zone.

    A timestamp is an integer number of microseconds since 0001-01-01 00:00
    (Python's smallest date), so that `timedelta` arithmetic is integer
    arithmetic. A day index counts days since 0001-01-01, which is a Monday:
    `date.weekday()` is the day index modulo 7. */
module Calendar {

  type Timestamp = int

  const SecondUs: int := 1_000_000
  const MinuteUs: int := 60_000_000
  const HourUs: int := 3_600_000_000
  const DayUs: int := 86_400_000_000

  /** `dt.date()` as a day index (floor division: Dafny's `/` is Euclidean). */
  function DayOf(t: Timestamp): int { t / DayUs }

  /** Midnight at the start of day `d`, i.e. `datetime(d.year, d.month, d.day)`. */
  function Midnight(d: int): Timestamp { d * DayUs }

  /** `dt.time()`, as microseconds since midnight. */
  function TimeOfDay(t: Timestamp): int { t % DayUs }

  /** `date.weekday()`: Monday is 0, Sunday is 6. */
  function Weekday(d: int): int { d % 7 }

  lemma MidnightBounds(t: Timestamp)
    ensures Midnight(DayOf(t)) <= t < Midnight(DayOf(t) + 1)
    ensures t - TimeOfDay(t) == Midnight(DayOf(t))
  {
  }

  lemma DayOfInRange(t: Timestamp, d: int)
    requires Midnight(d) <= t < Midnight(d + 1)
    ensures DayOf(t) == d
  {
  }

  lemma DayOfMidnight(d: int)
    ensures DayOf(Midnight(d)) == d
  {
    DayOfInRange(Midnight(d), d);
  }

  lemma DayOfMonotonic(a: Timestamp, b: Timestamp)
    requires a <= b
    ensures DayOf(a) <= DayOf(b)
  {
  }

  // ---------------------------------------------------------------------
  // Civil dates

  predicate IsLeap(y: int) {
    y % 4 == 0 && (y % 100 != 0 || y % 400 == 0)
  }

  function DaysInYear(y: int): int {
    if IsLeap(y) then 366 else 365
  }

  /** `calendar.monthrange(y, m)[1]`. */
  function DaysInMonth(y: int, m: int): (n: int)
    requires 1 <= m <= 12
    ensures 28 <= n <= 31
  {
    if m == 2 then (if IsLeap(y) then 29 else 28)
    else if m == 4 || m == 6 || m == 9 || m == 11 then 30
    else 31
  }

  /** Days of year `y` before the first of month `m` (`m == 13` gives the whole year). */
  function DaysBeforeMonth(y: int, m: int): (n: int)
    requires 1 <= m <= 13
    ensures 28 * (m - 1) <= n <= 31 * (m - 1)
  {
    if m == 1 then 0 else DaysBeforeMonth(y, m - 1) + DaysInMonth(y, m - 1)
  }

  /** The twelve months make up the year. */
  lemma MonthsMakeYear(y: int)
    ensures DaysBeforeMonth(y, 13) == DaysInYear(y)
  {
    var leap := if IsLeap(y) then 1 else 0;
    assert DaysBeforeMonth(y, 2) == 31;
    assert DaysBeforeMonth(y, 3) == 59 + leap;
    assert DaysBeforeMonth(y, 4) == 90 + leap;
    assert DaysBeforeMonth(y, 5) == 120 + leap;
    assert DaysBeforeMonth(y, 6) == 151 + leap;
    assert DaysBeforeMonth(y, 7) == 181 + leap;
    assert DaysBeforeMonth(y, 8) == 212 + leap;
    assert DaysBeforeMonth(y, 9) == 243 + leap;
    assert DaysBeforeMonth(y, 10) == 273 + leap;
    assert DaysBeforeMonth(y, 11) == 304 + leap;
    assert DaysBeforeMonth(y, 12) == 334 + leap;
    assert DaysBeforeMonth(y, 13) == 365 + leap;
  }

  lemma DaysBeforeMonthStep(y: int, m: int)
    requires 1 <= m <= 12
    ensures DaysBeforeMonth(y, m + 1) == DaysBeforeMonth(y, m) + DaysInMonth(y, m)
    ensures DaysBeforeMonth(y, 13) == DaysInYear(y)
  {
    MonthsMakeYear(y);
  }

  lemma {:induction false} DaysBeforeMonthMonotonic(y: int, m: int, k: int)
    requires 1 <= m <= k <= 13
    ensures DaysBeforeMonth(y, m) <= DaysBeforeMonth(y, k)
    ensures m < k ==> DaysBeforeMonth(y, m) + 28 <= DaysBeforeMonth(y, k)
    decreases k - m
  {
    if m < k {
      DaysBeforeMonthMonotonic(y, m, k - 1);
    }
  }

  /** Days from 0001-01-01 to January 1 of year `y` (negative before year 1),
      year by year, so that the verifier unfolds it one year at a time. */
  function DaysBeforeYear(y: int): int
    decreases if y < 1 then 1 - y else y - 1
  {
    if y == 1 then 0
    else if y > 1 then DaysBeforeYear(y - 1) + DaysInYear(y - 1)
    else DaysBeforeYear(y + 1) - DaysInYear(y)
  }

  lemma DaysBeforeYearStep(y: int)
    ensures DaysBeforeYear(y + 1) == DaysBeforeYear(y) + DaysInYear(y)
  {
  }

  lemma {:induction false} DaysBeforeYearMonotonic(a: int, b: int)
    requires a <= b
    ensures DaysBeforeYear(a) + 365 * (b - a) <= DaysBeforeYear(b)
    decreases b - a
  {
    if a < b {
      DaysBeforeYearMonotonic(a, b - 1);
      DaysBeforeYearStep(b - 1);
    }
  }

  predicate ValidDate(y: int, m: int, d: int) {
    1 <= m <= 12 && 1 <= d <= DaysInMonth(y, m)
  }

  /** `date(y, m, d).toordinal() - 1`. */
  function DayIndex(y: int, m: int, d: int): int
    requires 1 <= m <= 12
  {
    DaysBeforeYear(y) + DaysBeforeMonth(y, m) + d - 1
  }

  lemma DayIndexInYear(y: int, m: int, d: int)
    requires ValidDate(y, m, d)
    ensures DaysBeforeYear(y) <= DayIndex(y, m, d) < DaysBeforeYear(y + 1)
    ensures DaysBeforeMonth(y, m) <= DayIndex(y, m, d) - DaysBeforeYear(y) < DaysBeforeMonth(y, m + 1)
  {
    DaysBeforeYearStep(y);
    DaysBeforeMonthStep(y, m);
    DaysBeforeMonthMonotonic(y, m + 1, 13);
    assert DayIndex(y, m, d) - DaysBeforeYear(y) == DaysBeforeMonth(y, m) + d - 1;
    assert DaysBeforeMonth(y, m + 1) <= DaysInYear(y);
  }

  datatype Date = Date(year: int, month: int, day: int)

  /** The year whose days contain day index `n`, searched upwards from year `y`. */
  function YearUpFrom(n: int, y: int): (r: int)
    requires DaysBeforeYear(y) <= n
    ensures DaysBeforeYear(r) <= n < DaysBeforeYear(r + 1)
    decreases n - DaysBeforeYear(y)
  {
    DaysBeforeYearStep(y);
    if n < DaysBeforeYear(y + 1) then y else YearUpFrom(n, y + 1)
  }

  /** The year whose days contain day index `n`, searched downwards from year `y`. */
  function YearDownFrom(n: int, y: int): (r: int)
    requires n < DaysBeforeYear(y + 1)
    ensures DaysBeforeYear(r) <= n < DaysBeforeYear(r + 1)
    decreases DaysBeforeYear(y + 1) - n
  {
    DaysBeforeYearStep(y);
    if DaysBeforeYear(y) <= n then y else YearDownFrom(n, y - 1)
  }

  function YearOfDay(n: int): (r: int)
    ensures DaysBeforeYear(r) <= n < DaysBeforeYear(r + 1)
  {
    if n >= 0 then YearUpFrom(n, 1) else YearDownFrom(n, 0)
  }

  /** The month of year `y` holding day-of-year offset `r`, searched from month `m`. */
  function MonthFrom(y: int, r: int, m: int): (k: int)
    requires 1 <= m <= 12 && DaysBeforeMonth(y, m) <= r < DaysInYear(y)
    ensures m <= k <= 12 && DaysBeforeMonth(y, k) <= r < DaysBeforeMonth(y, k + 1)
    decreases 12 - m
  {
    MonthsMakeYear(y);
    if r < DaysBeforeMonth(y, m + 1) || m == 12 then m else MonthFrom(y, r, m + 1)
  }

  /** `date.fromordinal(n + 1)`. */
  function DateOfDay(n: int): (dt: Date)
    ensures ValidDate(dt.year, dt.month, dt.day)
    ensures DayIndex(dt.year, dt.month, dt.day) == n
  {
    var y := YearOfDay(n);
    DaysBeforeYearStep(y);
    var r := n - DaysBeforeYear(y);
    var m := MonthFrom(y, r, 1);
    DaysBeforeMonthStep(y, m);
    Date(y, m, r - DaysBeforeMonth(y, m) + 1)
  }

  lemma YearUnique(n: int, a: int, b: int)
    requires DaysBeforeYear(a) <= n < DaysBeforeYear(a + 1)
    requires DaysBeforeYear(b) <= n < DaysBeforeYear(b + 1)
    ensures a == b
  {
    if a < b {
      DaysBeforeYearMonotonic(a + 1, b);
    } else if b < a {
      DaysBeforeYearMonotonic(b + 1, a);
    }
  }

  lemma MonthUnique(y: int, r: int, a: int, b: int)
    requires 1 <= a <= 12 && 1 <= b <= 12
    requires DaysBeforeMonth(y, a) <= r < DaysBeforeMonth(y, a + 1)
    requires DaysBeforeMonth(y, b) <= r < DaysBeforeMonth(y, b + 1)
    ensures a == b
  {
    if a < b {
      DaysBeforeMonthMonotonic(y, a + 1, b);
    } else if b < a {
      DaysBeforeMonthMonotonic(y, b + 1, a);
    }
  }

  /** Day indices and valid civil dates are in one-to-one correspondence. */
  lemma DateOfDayIndex(y: int, m: int, d: int)
    requires ValidDate(y, m, d)
    ensures DateOfDay(DayIndex(y, m, d)) == Date(y, m, d)
  {
    var n := DayIndex(y, m, d);
    var dt := DateOfDay(n);
    DayIndexInYear(y, m, d);
    DayIndexInYear(dt.year, dt.month, dt.day);
    YearUnique(n, y, dt.year);
    MonthUnique(y, n - DaysBeforeYear(y), m, dt.month);
  }

  // ---------------------------------------------------------------------
  // Date and time of day together: the fields of a naive `datetime`

  datatype DateTime = DateTime(year: int, month: int, day: int,
                               hour: int, minute: int, second: int, microsecond: int)

  /** The field range checks of `datetime(...)` and `datetime.replace(...)`
      on a proleptic calendar; the year bounds are `InYears`. */
  predicate ValidDateTime(dt: DateTime) {
    && ValidDate(dt.year, dt.month, dt.day)
    && 0 <= dt.hour < 24 && 0 <= dt.minute < 60
    && 0 <= dt.second < 60 && 0 <= dt.microsecond < 1_000_000
  }

  const MinYear: int := 1
  const MaxYear: int := 9999

  /** Python's `MINYEAR <= year <= MAXYEAR`. */
  predicate InYears(y: int) {
    MinYear <= y <= MaxYear
  }

  /** The days of years 1 through 9999: `date.max.toordinal()`. */
  const DaysOfAllYears: int := 3_652_059

  /** A moment a Python `datetime` can hold, from 0001-01-01 00:00 to the
      last microsecond of 9999-12-31 (`RepresentableYears` shows these are
      the moments of years 1..9999). Timestamp arithmetic is unbounded, so an
      out-of-range moment stands for one Python rejects. */
  predicate Representable(t: Timestamp) {
    0 <= t < Midnight(DaysOfAllYears)
  }

  function ToTimestamp(dt: DateTime): Timestamp
    requires ValidDateTime(dt)
  {
    DayIndex(dt.year, dt.month, dt.day) * DayUs
      + dt.hour * HourUs + dt.minute * MinuteUs + dt.second * SecondUs + dt.microsecond
  }

  /** The fields of the `datetime` at `t`. */
  function FromTimestamp(t: Timestamp): (dt: DateTime)
    ensures ValidDateTime(dt)
  {
    var date := DateOfDay(DayOf(t));
    var rest := TimeOfDay(t);
    DateTime(date.year, date.month, date.day,
             rest / HourUs, rest % HourUs / MinuteUs, rest % MinuteUs / SecondUs, rest % SecondUs)
  }

  /** A split into whole minutes and a remainder below a minute is the one
      `%` finds. */
  lemma MinuteRemainder(x: int, q: int, r: int)
    requires 0 <= r < MinuteUs && x == q * MinuteUs + r
    ensures x % MinuteUs == r
  {
  }

  /** A split into whole seconds and a remainder below a second is the one
      `%` finds. */
  lemma SecondRemainder(x: int, q: int, r: int)
    requires 0 <= r < SecondUs && x == q * SecondUs + r
    ensures x % SecondUs == r
  {
  }

  /** Microseconds since midnight are the sum of their time-of-day fields. */
  lemma SplitTimeOfDay(rest: int)
    requires 0 <= rest < DayUs
    ensures rest / HourUs * HourUs + rest % HourUs / MinuteUs * MinuteUs
          + rest % MinuteUs / SecondUs * SecondUs + rest % SecondUs == rest
  {
    var h := rest / HourUs;
    var r1 := rest % HourUs;
    var m := r1 / MinuteUs;
    var r2 := r1 % MinuteUs;
    assert rest == h * HourUs + r1;
    assert r1 == m * MinuteUs + r2;
    MinuteRemainder(rest, h * 60 + m, r2);
    var sec := r2 / SecondUs;
    var us := r2 % SecondUs;
    assert r2 == sec * SecondUs + us;
    SecondRemainder(rest, (h * 60 + m) * 60 + sec, us);
  }

  /** Converting a timestamp to fields and back gives the same timestamp. */
  lemma ToFromTimestamp(t: Timestamp)
    ensures ToTimestamp(FromTimestamp(t)) == t
  {
    MidnightBounds(t);
    SplitTimeOfDay(TimeOfDay(t));
  }

  lemma TimestampDay(dt: DateTime)
    requires ValidDateTime(dt)
    ensures DayOf(ToTimestamp(dt)) == DayIndex(dt.year, dt.month, dt.day)
    ensures TimeOfDay(ToTimestamp(dt))
         == dt.hour * HourUs + dt.minute * MinuteUs + dt.second * SecondUs + dt.microsecond
  {
    var n := DayIndex(dt.year, dt.month, dt.day);
    var t := ToTimestamp(dt);
    assert Midnight(n) <= t < Midnight(n + 1);
    DayOfInRange(t, n);
  }

  /** The time-of-day fields are recovered from the microseconds since midnight. */
  lemma TimeFields(hour: int, minute: int, second: int, microsecond: int)
    requires 0 <= hour < 24 && 0 <= minute < 60 && 0 <= second < 60 && 0 <= microsecond < 1_000_000
    ensures var rest := hour * HourUs + minute * MinuteUs + second * SecondUs + microsecond;
            && rest / HourUs == hour && rest % HourUs / MinuteUs == minute
            && rest % MinuteUs / SecondUs == second && rest % SecondUs == microsecond
  {
    var r2 := second * SecondUs + microsecond;
    var r1 := minute * MinuteUs + r2;
    var rest := hour * HourUs + r1;
    assert 0 <= r2 < SecondUs * 60 && 0 <= r1 < MinuteUs * 60;
    assert rest / HourUs == hour && rest % HourUs == r1;
    assert r1 / MinuteUs == minute;
    assert rest % MinuteUs == r2;
    assert r2 / SecondUs == second;
    assert rest % SecondUs == microsecond;
  }

  /** Converting the fields to a timestamp and back gives the same fields. */
  lemma FromToTimestamp(dt: DateTime)
    requires ValidDateTime(dt)
    ensures FromTimestamp(ToTimestamp(dt)) == dt
  {
    var t := ToTimestamp(dt);
    TimestampDay(dt);
    DateOfDayIndex(dt.year, dt.month, dt.day);
    TimeFields(dt.hour, dt.minute, dt.second, dt.microsecond);
    var date := DateOfDay(DayOf(t));
    assert date.year == dt.year && date.month == dt.month && date.day == dt.day;
    var rest := TimeOfDay(t);
    assert rest == dt.hour * HourUs + dt.minute * MinuteUs + dt.second * SecondUs + dt.microsecond;
  }

  /** The multiples of 4, 100 and 400 counted up to `y` step up exactly at
      a multiple. */
  lemma MultipleSteps(y: int)
    ensures y / 4 - (y - 1) / 4 == if y % 4 == 0 then 1 else 0
    ensures y / 100 - (y - 1) / 100 == if y % 100 == 0 then 1 else 0
    ensures y / 400 - (y - 1) / 400 == if y % 400 == 0 then 1 else 0
  {
  }

  lemma DivisorChain(x: int)
    ensures x % 400 == 0 ==> x % 100 == 0
    ensures x % 100 == 0 ==> x % 4 == 0
  {
    CenturyOfQuadCentury(x);
    LeapOfCentury(x);
  }

  lemma CenturyOfQuadCentury(x: int)
    ensures x % 400 == 0 ==> x % 100 == 0
  {
    if x % 400 == 0 {
      assert x == 100 * (4 * (x / 400));
    }
  }

  lemma LeapOfCentury(x: int)
    ensures x % 100 == 0 ==> x % 4 == 0
  {
    if x % 100 == 0 {
      assert x == 4 * (25 * (x / 100));
    }
  }

  /** The leap-year count Python's `_days_before_year` uses. */
  lemma {:induction false} DaysBeforeYearFormula(y: int)
    requires y >= 1
    ensures DaysBeforeYear(y) == 365 * (y - 1) + (y - 1) / 4 - (y - 1) / 100 + (y - 1) / 400
    decreases y
  {
    if y > 1 {
      DaysBeforeYearFormula(y - 1);
      var x := y - 1;
      MultipleSteps(x);
      DivisorChain(x);
      assert DaysBeforeYear(y) == DaysBeforeYear(x) + DaysInYear(x);
      assert DaysInYear(x) == 365 + (x / 4 - (x - 1) / 4) - (x / 100 - (x - 1) / 100) + (x / 400 - (x - 1) / 400);
    }
  }

  /** The representable moments are those of years 1..9999. */
  lemma RepresentableYears(t: Timestamp)
    ensures Representable(t) <==> InYears(FromTimestamp(t).year)
  {
    var n := DayOf(t);
    MidnightBounds(t);
    assert Representable(t) <==> 0 <= n < DaysOfAllYears;
    assert FromTimestamp(t).year == YearOfDay(n);
    YearsOfDays(n);
  }

  /** Midnight of a date is a moment Python can hold iff the date's year is
      one of Python's. */
  lemma RepresentableDate(y: int, m: int, d: int)
    requires ValidDate(y, m, d)
    ensures Representable(Midnight(DayIndex(y, m, d))) <==> InYears(y)
  {
    var dt := DateTime(y, m, d, 0, 0, 0, 0);
    FromToTimestamp(dt);
    assert ToTimestamp(dt) == Midnight(DayIndex(y, m, d));
    RepresentableYears(ToTimestamp(dt));
  }

  /** The last day Python can hold, day `DaysOfAllYears - 1`, is 9999-12-31. */
  lemma LastDayOfYears()
    ensures DateOfDay(DaysOfAllYears - 1) == Date(MaxYear, 12, 31)
  {
    LastDayIndex();
    DateOfDayIndex(MaxYear, 12, 31);
  }

  lemma LastDayIndex()
    ensures DayIndex(MaxYear, 12, 31) == DaysOfAllYears - 1
  {
    var y := MaxYear;
    DaysBeforeYearFormula(y);
    assert DaysBeforeYear(y) == 3_651_694;
    LastMonthStarts(y);
  }

  /** December begins 334 days into a common year. */
  lemma LastMonthStarts(y: int)
    requires !IsLeap(y)
    ensures DaysBeforeMonth(y, 12) == 334
  {
    MonthsMakeYear(y);
    assert DaysBeforeMonth(y, 13) == DaysBeforeMonth(y, 12) + 31;
  }

  /** The days from 0001-01-01 up to 9999-12-31 are exactly those whose
      year is one of Python's. */
  lemma YearsOfDays(n: int)
    ensures 0 <= n < DaysOfAllYears <==> InYears(YearOfDay(n))
  {
    var y := YearOfDay(n);
    DaysBeforeYearFormula(MaxYear + 1);
    assert DaysBeforeYear(MaxYear + 1) == DaysOfAllYears;
    if y < MinYear {
      DaysBeforeYearMonotonic(y + 1, MinYear);
    } else if y > MaxYear {
      DaysBeforeYearMonotonic(MaxYear + 1, y);
    } else {
      DaysBeforeYearMonotonic(MinYear, y);
      DaysBeforeYearMonotonic(y + 1, MaxYear + 1);
    }
  }

}
