/** Calendar arithmetic of timeturner/helper.py: start and end of a unit,
    adding and subtracting durations, and iterating over the days of a range. */
module Helper {
  import opened Wrappers
  import opened Calendar

  /** The keyword arguments of `datetime.timedelta`, in whole numbers. */
  datatype Delta = Delta(weeks: int, days: int, hours: int, minutes: int,
                         seconds: int, milliseconds: int, microseconds: int)

  const NoDelta := Delta(0, 0, 0, 0, 0, 0, 0)

  function Days(n: int): Delta { NoDelta.(days := n) }

  /** The length of `timedelta(**kwargs)` in microseconds. */
  function DeltaUs(d: Delta): int {
    d.weeks * 7 * DayUs + d.days * DayUs + d.hours * HourUs + d.minutes * MinuteUs
      + d.seconds * SecondUs + d.milliseconds * 1000 + d.microseconds
  }

  // ---------------------------------------------------------------------
  // datetime.replace

  /** The field names of a `datetime`, which are also `start_of`'s unit names. */
  datatype Unit = Year | Month | Day | Hour | Minute | Second | Microsecond

  /** The unit a name denotes, if any. */
  function ParseUnit(name: string): (u: Option<Unit>)
    ensures u.Some? ==> UnitName(u.value) == name
    ensures u.None? ==> forall v :: UnitName(v) != name
  {
    if name == "year" then Some(Year)
    else if name == "month" then Some(Month)
    else if name == "day" then Some(Day)
    else if name == "hour" then Some(Hour)
    else if name == "minute" then Some(Minute)
    else if name == "second" then Some(Second)
    else if name == "microsecond" then Some(Microsecond)
    else None
  }

  function UnitName(u: Unit): string {
    match u
    case Year => "year"
    case Month => "month"
    case Day => "day"
    case Hour => "hour"
    case Minute => "minute"
    case Second => "second"
    case Microsecond => "microsecond"
  }

  /** The keyword arguments of `datetime.replace`: a new value for some fields. */
  datatype Replacement = Replacement(year: Option<int>, month: Option<int>, day: Option<int>,
                                     hour: Option<int>, minute: Option<int>,
                                     second: Option<int>, microsecond: Option<int>)

  const NoReplacement := Replacement(None, None, None, None, None, None, None)

  /** `args[unit] = value`. */
  function With(args: Replacement, u: Unit, value: int): Replacement {
    match u
    case Year => args.(year := Some(value))
    case Month => args.(month := Some(value))
    case Day => args.(day := Some(value))
    case Hour => args.(hour := Some(value))
    case Minute => args.(minute := Some(value))
    case Second => args.(second := Some(value))
    case Microsecond => args.(microsecond := Some(value))
  }

  function Replace(dt: DateTime, args: Replacement): DateTime {
    DateTime(args.year.GetOr(dt.year), args.month.GetOr(dt.month), args.day.GetOr(dt.day),
             args.hour.GetOr(dt.hour), args.minute.GetOr(dt.minute),
             args.second.GetOr(dt.second), args.microsecond.GetOr(dt.microsecond))
  }

  /** `datetime.replace(**args)` on the timestamp `t`: a `ValueError` when a
      field leaves its range (the 31st of a 30-day month, hour 24, year 0 or
      10000, ...). */
  function ReplaceAt(t: Timestamp, args: Replacement): (r: Result<Timestamp>)
    ensures var dt := Replace(FromTimestamp(t), args);
            r.Err? <==> !ValidDateTime(dt) || !InYears(dt.year)
    ensures r.Err? ==> r.error == ValueError
  {
    var dt := Replace(FromTimestamp(t), args);
    if ValidDateTime(dt) && InYears(dt.year) then Ok(ToTimestamp(dt)) else Err(ValueError)
  }

  // ---------------------------------------------------------------------
  // start_of

  /** The units `start_of` accepts besides "week", largest first, each with
      the value it is reset to when a larger unit is asked for (`None` for the
      year, which is never reset). */
  const UnitsWithValues: seq<(Unit, Option<int>)> := [
    (Year, None), (Month, Some(1)), (Day, Some(1)), (Hour, Some(0)),
    (Minute, Some(0)), (Second, Some(0)), (Microsecond, Some(0))
  ]

  /** The position of `u` in the table, `units.index(unit)`. */
  function UnitIndex(u: Unit): (i: nat)
    ensures i < |UnitsWithValues| && UnitsWithValues[i].0 == u
  {
    match u
    case Year => 0
    case Month => 1
    case Day => 2
    case Hour => 3
    case Minute => 4
    case Second => 5
    case Microsecond => 6
  }

  /** `Some(value)` for table positions `lo <= k < hi`. */
  function ResetIf(lo: nat, hi: nat, k: nat, value: int): Option<int> {
    if lo <= k < hi then Some(value) else None
  }

  /** The replacement `start_of` has built after visiting the table entries
      `lo <= k < hi`: each of those units set to its reset value. */
  function Resets(lo: nat, hi: nat): Replacement
    requires 1 <= lo
  {
    Replacement(None, ResetIf(lo, hi, 1, 1), ResetIf(lo, hi, 2, 1), ResetIf(lo, hi, 3, 0),
                ResetIf(lo, hi, 4, 0), ResetIf(lo, hi, 5, 0), ResetIf(lo, hi, 6, 0))
  }

  /** The replacement for every unit below table position `lo - 1`. */
  function ResetFrom(lo: nat): Replacement
    requires 1 <= lo
  {
    Resets(lo, |UnitsWithValues|)
  }

  /** What `start_of(t, unit)` returns. */
  function StartOfSpec(t: Timestamp, unit: string): Result<Timestamp> {
    var base := if unit == "week" then "day" else unit;
    var additional := if unit == "week" then -Weekday(DayOf(t)) * DayUs else 0;
    match ParseUnit(base)
    case None => Err(AssertionError)
    case Some(u) =>
      match ReplaceAt(t, ResetFrom(UnitIndex(u) + 1))
      case Ok(s) => Ok(s + additional)
      case Err(e) => Err(e)
  }

  /** `start_of`: builds the `replace` arguments for every unit smaller than
      `unit` in a loop, as the source does. */
  method StartOf(t: Timestamp, unit: string) returns (r: Result<Timestamp>)
    ensures r == StartOfSpec(t, unit)
  {
    var additional := 0;
    var name := unit;
    if name == "week" {
      name := "day";
      additional := -Weekday(DayOf(t)) * DayUs;
    }
    var found := ParseUnit(name);
    if found.None? {
      return Err(AssertionError);
    }
    var args := ResetArgs(UnitIndex(found.value) + 1);
    var replaced := ReplaceAt(t, args);
    StartOfSpecFrom(t, unit, name, found.value, additional, replaced);
    if replaced.Err? {
      return Err(replaced.error);
    }
    r := Ok(replaced.value + additional);
  }

  /** The `replace` arguments of `start_of`, one unit of the table after
      the other from position `lo` on. */
  method ResetArgs(lo: nat) returns (args: Replacement)
    requires 1 <= lo <= |UnitsWithValues|
    ensures args == ResetFrom(lo)
  {
    args := NoReplacement;
    var i := lo;
    while i < |UnitsWithValues|
      invariant lo <= i <= |UnitsWithValues|
      invariant args == Resets(lo, i)
    {
      args := With(args, UnitsWithValues[i].0, UnitsWithValues[i].1.GetOr(0));
      i := i + 1;
    }
  }

  /** `StartOfSpec` once the unit name is found in the table: for "week",
      the start of the day moved back by the weekday. */
  lemma StartOfSpecFrom(t: Timestamp, unit: string, name: string, u: Unit, additional: int,
                         replaced: Result<Timestamp>)
    requires name == (if unit == "week" then "day" else unit)
    requires additional == (if unit == "week" then -Weekday(DayOf(t)) * DayUs else 0)
    requires ParseUnit(name) == Some(u)
    requires replaced == ReplaceAt(t, ResetFrom(UnitIndex(u) + 1))
    ensures StartOfSpec(t, unit)
         == if replaced.Err? then Err(replaced.error) else Ok(replaced.value + additional)
  {
    if unit == "week" {
      WeekFromDay(t);
      assert u == Day;
    } else {
      StartOfOtherSpec(t, unit, u);
    }
  }

  lemma StartOfOtherSpec(t: Timestamp, unit: string, u: Unit)
    requires unit != "week" && ParseUnit(unit) == Some(u)
    ensures StartOfSpec(t, unit)
         == match ReplaceAt(t, ResetFrom(UnitIndex(u) + 1))
            case Ok(s) => Ok(s + 0)
            case Err(e) => Err(e)
  {
  }

  /** Resetting the units below table position `i - 1` keeps the year and
      gives valid fields, so `replace` fails exactly on moments outside
      Python's years. */
  lemma ResetReplace(t: Timestamp, i: nat)
    requires 1 <= i <= |UnitsWithValues|
    ensures var dt := Replace(FromTimestamp(t), ResetFrom(i));
            dt.year == FromTimestamp(t).year && ValidDateTime(dt)
    ensures ReplaceAt(t, ResetFrom(i))
         == if Representable(t) then Ok(ToTimestamp(Replace(FromTimestamp(t), ResetFrom(i)))) else Err(ValueError)
  {
    RepresentableYears(t);
    var dt := Replace(FromTimestamp(t), ResetFrom(i));
    assert dt.year == FromTimestamp(t).year;
    assert ValidDateTime(dt);
  }

  /** `start_of(t, "day")` in closed form: midnight of `t`'s date. */
  function DayStart(t: Timestamp): Timestamp {
    Midnight(DayOf(t))
  }

  /** `start_of(t, "day")` keeps the date and zeroes the time of day. */
  lemma StartOfDay(t: Timestamp)
    ensures StartOfSpec(t, "day") == if Representable(t) then Ok(DayStart(t)) else Err(ValueError)
    ensures DayOf(DayStart(t)) == DayOf(t) && DayStart(t) <= t < DayStart(t) + DayUs
  {
    DayReset(t);
    MidnightBounds(t);
    DayOfMidnight(DayOf(t));
    assert ParseUnit("day") == Some(Day) && UnitIndex(Day) + 1 == 3;
    StartOfOtherSpec(t, "day", Day);
  }

  /** Resetting the time of day gives the day's midnight. */
  lemma DayReset(t: Timestamp)
    ensures ReplaceAt(t, ResetFrom(3)) == if Representable(t) then Ok(DayStart(t)) else Err(ValueError)
  {
    ResetReplace(t, 3);
    var dt := FromTimestamp(t);
    var args := ResetFrom(3);
    assert args == Replacement(None, None, None, Some(0), Some(0), Some(0), Some(0));
    var day := DateTime(dt.year, dt.month, dt.day, 0, 0, 0, 0);
    assert Replace(dt, args) == day;
    assert DayIndex(dt.year, dt.month, dt.day) == DayOf(t);
    assert ToTimestamp(day) == DayStart(t);
  }

  /** `start_of(t, "week")` is midnight of the Monday on or before `t`'s date. */
  lemma StartOfWeek(t: Timestamp)
    ensures StartOfSpec(t, "week")
         == if Representable(t) then Ok(Midnight(DayOf(t) - Weekday(DayOf(t)))) else Err(ValueError)
  {
    DayReset(t);
    WeekFromDay(t);
    var w := Weekday(DayOf(t));
    MidnightShift(t, w);
    Shifted(ReplaceAt(t, ResetFrom(3)), StartOfSpec(t, "week"), Representable(t),
            DayStart(t), -w * DayUs, Midnight(DayOf(t) - w));
  }

  /** `start_of(t, "week")` is the day's reset moved back by the weekday. */
  lemma WeekFromDay(t: Timestamp)
    ensures StartOfSpec(t, "week")
         == match ReplaceAt(t, ResetFrom(3))
            case Ok(s) => Ok(s + -Weekday(DayOf(t)) * DayUs)
            case Err(e) => Err(e)
  {
    assert ParseUnit("day") == Some(Day) && UnitIndex(Day) + 1 == 3;
  }

  /** A result moved by `k` when it is a value, for a result that is a value
      exactly when `ok`. */
  lemma Shifted(r: Result<Timestamp>, moved: Result<Timestamp>, ok: bool, a: Timestamp, k: int, b: Timestamp)
    ensures && r == (if ok then Ok(a) else Err(ValueError))
            && moved == (match r case Ok(s) => Ok(s + k) case Err(e) => Err(e))
            && b == a + k
            ==> moved == if ok then Ok(b) else Err(ValueError)
  {
  }

  lemma MidnightShift(t: Timestamp, w: int)
    ensures Midnight(DayOf(t) - w) == DayStart(t) + -w * DayUs
  {
  }


  /** `start_of(t, "month")` is midnight of the first of `t`'s month. */
  lemma StartOfMonth(t: Timestamp)
    ensures var dt := FromTimestamp(t);
            StartOfSpec(t, "month")
              == if Representable(t) then Ok(Midnight(DayIndex(dt.year, dt.month, 1))) else Err(ValueError)
  {
    ResetReplace(t, 2);
    var dt := FromTimestamp(t);
    var args := ResetFrom(2);
    assert args == Replacement(None, None, Some(1), Some(0), Some(0), Some(0), Some(0));
    var first := DateTime(dt.year, dt.month, 1, 0, 0, 0, 0);
    assert Replace(dt, args) == first;
    assert ToTimestamp(first) == Midnight(DayIndex(dt.year, dt.month, 1));
    assert ParseUnit("month") == Some(Month) && UnitIndex(Month) + 1 == 2;
  }

  /** `start_of(t, "year")` is midnight of January 1 of `t`'s year. */
  lemma StartOfYear(t: Timestamp)
    ensures var dt := FromTimestamp(t);
            StartOfSpec(t, "year")
              == if Representable(t) then Ok(Midnight(DayIndex(dt.year, 1, 1))) else Err(ValueError)
  {
    ResetReplace(t, 1);
    var dt := FromTimestamp(t);
    var args := ResetFrom(1);
    assert args == Replacement(None, Some(1), Some(1), Some(0), Some(0), Some(0), Some(0));
    var first := DateTime(dt.year, 1, 1, 0, 0, 0, 0);
    assert Replace(dt, args) == first;
    assert ToTimestamp(first) == Midnight(DayIndex(dt.year, 1, 1));
    assert ParseUnit("year") == Some(Year) && UnitIndex(Year) + 1 == 1;
  }

  /** `start_of` raises `AssertionError` exactly on the names that are
      neither "week" nor a field name; with a good name it fails only on a
      moment outside Python's years, with the `ValueError` of `replace`. */
  lemma StartOfFails(t: Timestamp, unit: string)
    ensures unit != "week" && ParseUnit(unit).None? ==> StartOfSpec(t, unit) == Err(AssertionError)
    ensures (unit == "week" || ParseUnit(unit).Some?) ==>
              (StartOfSpec(t, unit).Err? <==> !Representable(t))
    ensures (unit == "week" || ParseUnit(unit).Some?) && !Representable(t) ==>
              StartOfSpec(t, unit) == Err(ValueError)
  {
    var base := if unit == "week" then "day" else unit;
    if ParseUnit(base).Some? {
      var i := UnitIndex(ParseUnit(base).value) + 1;
      ResetReplace(t, i);
    }
  }

  // ---------------------------------------------------------------------
  // dt_add, dt_subtract

  /** `dt_add(t, weeks, **kwargs)`: `weeks` is added as seven days each on top
      of any `days` given (the keyword `weeks` is bound to its own parameter,
      so `kwargs` cannot hold it). */
  function DtAdd(t: Timestamp, weeks: int, kwargs: Delta): Timestamp
    requires kwargs.weeks == 0
  {
    var args := if weeks != 0 then kwargs.(days := kwargs.days + weeks * 7) else kwargs;
    t + DeltaUs(args)
  }

  lemma DtAddWeeks(t: Timestamp, weeks: int, kwargs: Delta)
    requires kwargs.weeks == 0
    ensures DtAdd(t, weeks, kwargs) == DtAdd(t, 0, kwargs.(days := kwargs.days + 7 * weeks))
    ensures DtAdd(t, weeks, kwargs) == t + DeltaUs(kwargs.(weeks := weeks))
  {
  }

  /** The year and month `dt_subtract` moves to: years first, then months
      with a borrow or carry of one year. */
  function SubtractMonths(year: int, month: int, months: int, years: int): (int, int) {
    var newYear := if years != 0 then year - years else year;
    if months != 0 then
      var yearDelta := months / 12;
      var monthDelta := months % 12;
      var newMonth := month - monthDelta;
      if newMonth < 1 then (newYear - (yearDelta + 1), 12 + newMonth)
      else if newMonth > 12 then (newYear - (yearDelta - 1), newMonth - 12)
      else (newYear - yearDelta, newMonth)
    else (newYear, month)
  }

  /** The replacement of the year and the month. */
  function YearMonth(y: int, m: int): Replacement {
    NoReplacement.(year := Some(y), month := Some(m))
  }

  /** The year/month part of `dt_subtract`, applied to the moment `ret`
      reached after subtracting the timedelta. */
  function SubtractYearsMonths(ret: Timestamp, months: int, years: int): Result<Timestamp> {
    var dt := FromTimestamp(ret);
    var ym := SubtractMonths(dt.year, dt.month, months, years);
    ReplaceAt(ret, YearMonth(ym.0, ym.1))
  }

  /** `dt_subtract(t, months, years, **kwargs)`: the timedelta first (an
      `OverflowError` when that leaves Python's years), then the years and
      months. */
  function DtSubtract(t: Timestamp, months: int, years: int, kwargs: Delta): Result<Timestamp> {
    var ret := t - DeltaUs(kwargs);
    if !Representable(ret) then Err(OverflowError)
    else SubtractYearsMonths(ret, months, years)
  }

  /** The month stays in 1..12 and `year*12 + month` drops by exactly
      `12*years + months`, negative months included. */
  lemma SubtractMonthsCount(year: int, month: int, months: int, years: int)
    requires 1 <= month <= 12
    ensures var ym := SubtractMonths(year, month, months, years);
            1 <= ym.1 <= 12 && ym.0 * 12 + ym.1 == year * 12 + month - (12 * years + months)
  {
    assert months == 12 * (months / 12) + months % 12;
  }

  /** Replacing the year and month keeps the day and time of day, and fails
      exactly when the year is outside 1..9999 or the day does not exist in
      the new month. */
  lemma ReplaceYearMonth(t: Timestamp, y: int, m: int)
    requires 1 <= m <= 12
    ensures var dt := FromTimestamp(t);
            var r := ReplaceAt(t, YearMonth(y, m));
            && (InYears(y) && dt.day <= DaysInMonth(y, m) ==> r == Ok(ToTimestamp(dt.(year := y, month := m))))
            && (!InYears(y) || dt.day > DaysInMonth(y, m) ==> r == Err(ValueError))
  {
    var dt := FromTimestamp(t);
    assert Replace(dt, YearMonth(y, m)) == dt.(year := y, month := m);
  }

  /** The year/month step of `dt_subtract` keeps the day and the time of
      day, moves to the year and month of `SubtractMonths` (whose month count
      `SubtractMonthsCount` gives), and fails only on a year outside 1..9999
      or a day the new month lacks. */
  lemma DtSubtractCalendar(ret: Timestamp, months: int, years: int)
    ensures var dt := FromTimestamp(ret);
            var ym := SubtractMonths(dt.year, dt.month, months, years);
            var r := SubtractYearsMonths(ret, months, years);
            && 1 <= ym.1 <= 12
            && ym.0 * 12 + ym.1 == dt.year * 12 + dt.month - (12 * years + months)
            && (InYears(ym.0) && dt.day <= DaysInMonth(ym.0, ym.1) ==>
                  r == Ok(ToTimestamp(dt.(year := ym.0, month := ym.1))))
            && (!InYears(ym.0) || dt.day > DaysInMonth(ym.0, ym.1) ==> r == Err(ValueError))
  {
    var dt := FromTimestamp(ret);
    SubtractMonthsCount(dt.year, dt.month, months, years);
    var ym := SubtractMonths(dt.year, dt.month, months, years);
    ReplaceYearMonth(ret, ym.0, ym.1);
  }

  /** Without years or months the year/month step changes nothing (outside
      Python's years `replace` refuses the moment). */
  lemma SubtractNoMonths(ret: Timestamp)
    ensures SubtractYearsMonths(ret, 0, 0) == if Representable(ret) then Ok(ret) else Err(ValueError)
  {
    RepresentableYears(ret);
    var dt := FromTimestamp(ret);
    ToFromTimestamp(ret);
    assert SubtractMonths(dt.year, dt.month, 0, 0) == (dt.year, dt.month);
    assert Replace(dt, YearMonth(dt.year, dt.month)) == dt;
  }

  /** `dt_subtract(t, microseconds=1)`, as `iter_over_days` uses it, is one
      microsecond earlier, or an `OverflowError` at Python's first moment. */
  lemma DtSubtractMicrosecond(t: Timestamp)
    ensures DtSubtract(t, 0, 0, NoDelta.(microseconds := 1))
         == if Representable(t - 1) then Ok(t - 1) else Err(OverflowError)
  {
    var d := NoDelta.(microseconds := 1);
    assert DeltaUs(d) == 1;
    if Representable(t - 1) {
      SubtractNoMonths(t - 1);
    }
  }

  // ---------------------------------------------------------------------
  // end_of, end_of_day

  /** `end_of_day(t)`: `dt_add(start_of(t, "day"), days=1)`, with `start_of`
      in its closed form `DayStart`. */
  function EndOfDay(t: Timestamp): Timestamp {
    DtAdd(DayStart(t), 0, Days(1))
  }

  /** `end_of_day(t)` is midnight at the start of the day after `t`'s. */
  lemma EndOfDayNextMidnight(t: Timestamp)
    ensures Representable(t) ==> StartOfSpec(t, "day").Ok? && EndOfDay(t) == StartOfSpec(t, "day").value + DayUs
    ensures EndOfDay(t) == Midnight(DayOf(t) + 1)
    ensures DayOf(EndOfDay(t)) == DayOf(t) + 1 && t < EndOfDay(t)
  {
    StartOfDay(t);
    DayOfMidnight(DayOf(t) + 1);
  }

  /** `datetime + timedelta`: the sum, or `OverflowError` when the sum is not
      a moment Python can hold. */
  function Added(t: Timestamp): Result<Timestamp> {
    if Representable(t) then Ok(t) else Err(OverflowError)
  }

  /** `end_of(t, unit)`, "the first possible moment of the next unit". Every
      branch of the source starts from `start_of(t, unit)` (the first two name
      the unit they have just compared with), so the start is taken once. */
  function EndOf(t: Timestamp, unit: string): Result<Timestamp> {
    match StartOfSpec(t, unit)
    case Err(e) => Err(e)
    case Ok(s) => NextUnit(s, unit)
  }

  /** The branches of `end_of` after `start_of(t, unit)` has given `s`. */
  function NextUnit(s: Timestamp, unit: string): Result<Timestamp> {
    var first := FromTimestamp(s);
    if unit == "year" then ReplaceAt(s, NoReplacement.(year := Some(first.year + 1)))
    else if unit == "month" then Added(DtAdd(s, 0, Days(DaysInMonth(first.year, first.month))))
    else if unit == "week" then Added(DtAdd(s, 1, NoDelta))
    else Added(s + DeltaUs(if unit == "day" then Days(1)
                           else if unit == "hour" then NoDelta.(hours := 1)
                           else if unit == "minute" then NoDelta.(minutes := 1)
                           else if unit == "second" then NoDelta.(seconds := 1)
                           else NoDelta.(microseconds := 1)))
  }

  /** Adding the days of a month to its first day gives the first of the next month. */
  lemma NextMonthFirst(y: int, m: int)
    requires 1 <= m <= 12
    ensures DayIndex(y, m, 1) + DaysInMonth(y, m)
         == if m < 12 then DayIndex(y, m + 1, 1) else DayIndex(y + 1, 1, 1)
  {
    DaysBeforeMonthStep(y, m);
    DaysBeforeYearStep(y);
  }

  /** The first of month `m` of year `y`, at midnight, as a timestamp. */
  lemma FirstOfMonth(y: int, m: int)
    requires 1 <= m <= 12
    ensures FromTimestamp(Midnight(DayIndex(y, m, 1))) == DateTime(y, m, 1, 0, 0, 0, 0)
  {
    FromToTimestamp(DateTime(y, m, 1, 0, 0, 0, 0));
  }

  /** Adding the days of a month to its first day, as `end_of` does. */
  lemma AddMonthLength(y: int, m: int)
    requires 1 <= m <= 12
    ensures var s := Midnight(DayIndex(y, m, 1));
            var first := FromTimestamp(s);
            DtAdd(s, 0, Days(DaysInMonth(first.year, first.month)))
              == Midnight(if m < 12 then DayIndex(y, m + 1, 1) else DayIndex(y + 1, 1, 1))
  {
    FirstOfMonth(y, m);
    NextMonthFirst(y, m);
  }

  /** `end_of(t, "month")` is midnight on the first day of the month after
      `t`'s month `m` of year `y`; after December 9999 there is none, and the
      addition raises `OverflowError`. */
  lemma EndOfMonth(t: Timestamp, y: int, m: int)
    requires FromTimestamp(t).year == y && FromTimestamp(t).month == m
    ensures EndOf(t, "month")
         == if !Representable(t) then Err(ValueError)
            else if m < 12 || y < MaxYear
            then Ok(Midnight(if m < 12 then DayIndex(y, m + 1, 1) else DayIndex(y + 1, 1, 1)))
            else Err(OverflowError)
  {
    StartOfMonth(t);
    if !Representable(t) {
      assert StartOfSpec(t, "month") == Err(ValueError);
    } else {
      var s := Midnight(DayIndex(y, m, 1));
      EndOfStarted(t, "month", s);
      AddMonthLength(y, m);
      var next := if m < 12 then DayIndex(y, m + 1, 1) else DayIndex(y + 1, 1, 1);
      assert NextUnit(s, "month") == Added(Midnight(next));
      RepresentableYears(t);
      NextMonthRepresentable(y, m);
    }
  }

  /** The month after month `m` of a year `y` of Python's begins at a moment
      Python can hold, unless it is the month after December 9999. */
  lemma NextMonthRepresentable(y: int, m: int)
    requires InYears(y) && 1 <= m <= 12
    ensures Representable(Midnight(if m < 12 then DayIndex(y, m + 1, 1) else DayIndex(y + 1, 1, 1)))
        <==> m < 12 || y < MaxYear
  {
    if m < 12 {
      RepresentableDate(y, m + 1, 1);
    } else {
      RepresentableDate(y + 1, 1, 1);
    }
  }

  /** `end_of` is `NextUnit(s, unit)` when `start_of` gives `s`, and the
      `ValueError` of `start_of` otherwise. */
  lemma EndOfFrom(t: Timestamp, unit: string, ok: bool, s: Timestamp)
    requires StartOfSpec(t, unit) == if ok then Ok(s) else Err(ValueError)
    ensures EndOf(t, unit) == if ok then NextUnit(s, unit) else Err(ValueError)
  {
  }

  /** Once `start_of` has given `s`, `end_of` is `NextUnit(s, unit)`. */
  lemma EndOfStarted(t: Timestamp, unit: string, s: Timestamp)
    requires StartOfSpec(t, unit) == Ok(s)
    ensures EndOf(t, unit) == NextUnit(s, unit)
  {
  }


  /** Replacing the year of a January 1 moves to January 1 of that year,
      when that year is one of Python's. */
  lemma NewYear(y: int, z: int)
    ensures ReplaceAt(Midnight(DayIndex(y, 1, 1)), NoReplacement.(year := Some(z)))
         == if InYears(z) then Ok(Midnight(DayIndex(z, 1, 1))) else Err(ValueError)
  {
    NewYearFields(y, z);
    assert ToTimestamp(DateTime(z, 1, 1, 0, 0, 0, 0)) == Midnight(DayIndex(z, 1, 1));
  }

  lemma NewYearFields(y: int, z: int)
    ensures Replace(FromTimestamp(Midnight(DayIndex(y, 1, 1))), NoReplacement.(year := Some(z)))
         == DateTime(z, 1, 1, 0, 0, 0, 0)
  {
    FirstOfMonth(y, 1);
  }

  /** `end_of(t, "year")` is midnight of January 1 of the next year; in
      year 9999 there is none, and `replace` raises `ValueError`. */
  lemma EndOfYear(t: Timestamp)
    ensures var dt := FromTimestamp(t);
            EndOf(t, "year")
              == if MinYear <= dt.year < MaxYear then Ok(Midnight(DayIndex(dt.year + 1, 1, 1)))
                 else Err(ValueError)
  {
    EndOfYearAt(t, FromTimestamp(t).year);
  }

  lemma EndOfYearAt(t: Timestamp, y: int)
    requires FromTimestamp(t).year == y
    ensures EndOf(t, "year")
         == if MinYear <= y < MaxYear then Ok(Midnight(DayIndex(y + 1, 1, 1))) else Err(ValueError)
  {
    StartOfYear(t);
    RepresentableYears(t);
    if Representable(t) {
      EndOfStarted(t, "year", Midnight(DayIndex(y, 1, 1)));
      NextYear(y);
    } else {
      EndOfFrom(t, "year", false, 0);
    }
  }

  /** The year after January 1 of `y` begins on January 1 of `y + 1`. */
  lemma NextYear(y: int)
    ensures NextUnit(Midnight(DayIndex(y, 1, 1)), "year")
         == if InYears(y + 1) then Ok(Midnight(DayIndex(y + 1, 1, 1))) else Err(ValueError)
  {
    FirstOfMonth(y, 1);
    NewYear(y, y + 1);
  }

  /** `end_of(t, "day")` is `end_of_day(t)`, except on 9999-12-31 (day
      `DaysOfAllYears - 1`, `Calendar.LastDayOfYears`), which has no next day. */
  lemma EndOfDayIs(t: Timestamp)
    ensures EndOf(t, "day")
         == if !Representable(t) then Err(ValueError)
            else if DayOf(t) < DaysOfAllYears - 1 then Ok(EndOfDay(t))
            else Err(OverflowError)
  {
    StartOfDay(t);
    EndOfDayNextMidnight(t);
    if Representable(t) {
      assert StartOfSpec(t, "day") == Ok(DayStart(t));
      assert NextUnit(DayStart(t), "day") == Added(EndOfDay(t));
    }
  }

  /** `end_of(t, "week")` is midnight of the next Monday, when that day is
      not past 9999-12-31. */
  lemma EndOfWeek(t: Timestamp)
    ensures EndOf(t, "week")
         == if !Representable(t) then Err(ValueError)
            else if DayOf(t) - Weekday(DayOf(t)) + 7 < DaysOfAllYears
            then Ok(Midnight(DayOf(t) - Weekday(DayOf(t)) + 7))
            else Err(OverflowError)
  {
    EndOfWeekAt(t, DayOf(t) - Weekday(DayOf(t)));
  }

  lemma EndOfWeekAt(t: Timestamp, n: int)
    requires n == DayOf(t) - Weekday(DayOf(t))
    ensures EndOf(t, "week")
         == if !Representable(t) then Err(ValueError)
            else if n + 7 < DaysOfAllYears then Ok(Midnight(n + 7))
            else Err(OverflowError)
  {
    EndOfWeekStart(t);
    if Representable(t) {
      WeekStartDay(t);
      NextWeek(n);
    }
  }

  lemma EndOfWeekStart(t: Timestamp)
    ensures EndOf(t, "week")
         == if Representable(t) then NextUnit(Midnight(DayOf(t) - Weekday(DayOf(t))), "week") else Err(ValueError)
  {
    StartOfWeek(t);
    EndOfFrom(t, "week", Representable(t), Midnight(DayOf(t) - Weekday(DayOf(t))));
  }

  /** The Monday of a week of Python's is not before day 0. */
  lemma WeekStartDay(t: Timestamp)
    requires Representable(t)
    ensures 0 <= DayOf(t) - Weekday(DayOf(t))
  {
  }

  /** A week after the midnight of day `n`; past 9999-12-31 the addition
      raises `OverflowError`. */
  lemma NextWeek(n: int)
    requires 0 <= n
    ensures NextUnit(Midnight(n), "week")
         == if n + 7 < DaysOfAllYears then Ok(Midnight(n + 7)) else Err(OverflowError)
  {
    assert DtAdd(Midnight(n), 1, NoDelta) == Midnight(n + 7);
  }

  // ---------------------------------------------------------------------
  // iter_over_days

  /** The day indices `first`, `first + 1`, ..., `last`. */
  function DayRange(first: int, last: int): (days: seq<int>)
    ensures |days| == if first <= last then last - first + 1 else 0
    ensures forall i :: 0 <= i < |days| ==> days[i] == first + i
    decreases last - first
  {
    if first > last then [] else [first] + DayRange(first + 1, last)
  }

  const MaxDays := 500

  /** `iter_over_days(start, end)`, collected into a list: the dates from
      `start`'s through that of `end - 1µs`, nothing when `end <= start`, and a
      `RuntimeError` once a 501st day would be produced. Taking the
      microsecond off Python's first moment overflows. */
  method IterOverDays(start: Timestamp, end: Timestamp) returns (r: Result<seq<int>>)
    ensures !Representable(end - 1) ==> r == Err(OverflowError)
    ensures Representable(end - 1) && end <= start ==> r == Ok([])
    ensures Representable(end - 1) && start < end ==>
              r == if DayOf(end - 1) - DayOf(start) + 1 > MaxDays then Err(RuntimeError)
                   else if DayOf(end - 1) == DaysOfAllYears - 1 then Err(OverflowError)
                   else Ok(DayRange(DayOf(start), DayOf(end - 1)))
  {
    DtSubtractMicrosecond(end);
    var last := DtSubtract(end, 0, 0, NoDelta.(microseconds := 1));
    if last.Err? {
      assert !Representable(end - 1) && last.error == OverflowError;
      return Err(last.error);
    }
    assert Representable(end - 1) && last.value == end - 1;
    r := CollectDays(start, last.value);
  }

  /** The loop of `iter_over_days` from `start_of(start, "day")` (in closed
      form, `StartOfDay`) to the day of `last`, one `dt_add(days=1)` at a time. */
  method CollectDays(start: Timestamp, last: Timestamp) returns (r: Result<seq<int>>)
    requires last < Midnight(DaysOfAllYears)
    ensures last < start ==> r == Ok([])
    ensures start <= last ==>
              r == if DayOf(last) - DayOf(start) + 1 > MaxDays then Err(RuntimeError)
                   else if DayOf(last) == DaysOfAllYears - 1 then Err(OverflowError)
                   else Ok(DayRange(DayOf(start), DayOf(last)))
  {
    if last < start {
      return Ok([]);
    }
    var nextDay := DayStart(start);
    var lastDay := DayStart(last);
    DayOfMonotonic(start, last);
    MidnightBounds(start);
    var days: seq<int> := [];
    var idx := 0;
    while nextDay <= lastDay
      invariant nextDay == Midnight(DayOf(start) + idx)
      invariant nextDay < Midnight(DaysOfAllYears)
      invariant 0 <= idx <= DayOf(last) - DayOf(start) + 1
      invariant idx <= MaxDays
      invariant days == DayRange(DayOf(start), DayOf(start) + idx - 1)
      decreases lastDay - nextDay
    {
      idx := idx + 1;
      if idx > MaxDays {
        return Err(RuntimeError);
      }
      DayOfMidnight(DayOf(start) + idx - 1);
      assert DayRange(DayOf(start), DayOf(start) + idx - 1)
          == DayRange(DayOf(start), DayOf(start) + idx - 2) + [DayOf(start) + idx - 1];
      days := days + [DayOf(nextDay)];
      var following := DtAdd(nextDay, 0, Days(1));
      if following >= Midnight(DaysOfAllYears) {
        // the day just yielded is 9999-12-31: `datetime + timedelta` overflows
        assert DayOf(start) + idx - 1 == DayOf(last) == DaysOfAllYears - 1;
        return Err(OverflowError);
      }
      nextDay := following;
    }
    r := Ok(days);
  }

}
